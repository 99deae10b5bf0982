/** What every reachable state of the membership tables satisfies. */
module MembershipRuns {
  import opened Common
  import opened MembershipModel
  import Text

  /** A stored session agrees with its user, and its user is active. */
  predicate SessionOk(s: State, x: Session) {
    && x.identity in s.identities
    && Clean(s, x)
    && (x.user.Some? ==> s.users[x.user.value].deactivatedAt.None?)
  }

  ghost predicate Linked(s: State) {
    && (forall u | u in s.users :: s.users[u].identity in s.identities && s.users[u].workspace in s.workspaces)
    && (forall u, v | u in s.users && v in s.users && s.users[u].identity == s.users[v].identity
      && s.users[u].workspace == s.users[v].workspace :: u == v)
    && (forall i, j | i in s.identities && j in s.identities && s.identities[i] == s.identities[j] :: i == j)
  }

  ghost predicate SessionsOk(s: State) {
    forall t | t in s.sessions :: SessionOk(s, s.sessions[t])
  }

  ghost predicate Governed(s: State) {
    forall w | w in s.workspaces :: ActiveAdmins(s, w) != {}
  }

  ghost predicate Inv(s: State) {
    Linked(s) && SessionsOk(s) && Governed(s)
  }

  // ---------- Tokens ----------

  /** A token authenticates a member exactly if its session is stored and not expired, names a workspace, and its user
      is active; it authenticates an identity exactly if its session is stored and not expired. */
  lemma TokenOutcome(s: State, token: nat, now: int)
    requires Inv(s)
    ensures AuthWorkspace(s, token, now).Some? <==>
      && token in s.sessions && now < s.sessions[token].expiry && s.sessions[token].workspace.Some?
      && s.sessions[token].user.Some? && s.sessions[token].user.value in s.users
      && s.users[s.sessions[token].user.value].deactivatedAt.None?
    ensures AuthIdentity(s, token, now).Some? <==> token in s.sessions && now < s.sessions[token].expiry
    ensures AuthWorkspace(s, token, now).Some? ==> AuthWorkspace(s, token, now).value == s.sessions[token]
    ensures AuthIdentity(s, token, now).Some? ==> AuthIdentity(s, token, now).value == s.sessions[token]
  {
    if token in s.sessions { assert SessionOk(s, s.sessions[token]); }
  }

  // ---------- Opening sessions and admitting users ----------

  lemma OpeningKeeps(s: State, token: nat, identity: nat, user: Option<nat>, now: int)
    requires Inv(s) && identity in s.identities
    requires user.Some? ==> user.value in s.users && s.users[user.value].deactivatedAt.None?
    ensures var r := OpenSession(s, token, identity, user, now);
      && (r.Ok? <==> user.None? || s.users[user.value].identity == identity)
      && (r.Ok? ==> Inv(r.value) && r.value == s.(sessions := r.value.sessions))
  {
    var r := OpenSession(s, token, identity, user, now);
    if r.Ok? {
      forall t | t in r.value.sessions ensures SessionOk(r.value, r.value.sessions[t]) {
        assert t != token ==> SessionOk(s, s.sessions[t]);
      }
      forall w | w in r.value.workspaces ensures ActiveAdmins(r.value, w) != {} {
        assert ActiveAdmins(r.value, w) == ActiveAdmins(s, w);
      }
    }
  }

  lemma NewIdentityKeeps(s: State, email: string, newIdentity: nat)
    requires Inv(s) && newIdentity !in s.identities
    ensures var (s1, i) := GetOrCreateIdentity(s, email, newIdentity);
      && Inv(s1) && i in s1.identities && s1.identities[i] == email && s1 == s.(identities := s1.identities)
      && (forall j | j in s.identities :: j in s1.identities && s1.identities[j] == s.identities[j])
      && (i in s.identities || i == newIdentity)
  {
    var (s1, i) := GetOrCreateIdentity(s, email, newIdentity);
    assert First(IdentitiesWith(s, email)).None? ==> forall j | j in s.identities :: s.identities[j] != email by {
      assert forall j | j in s.identities && s.identities[j] == email :: j in IdentitiesWith(s, email);
    }
    forall t | t in s1.sessions ensures SessionOk(s1, s1.sessions[t]) { assert SessionOk(s, s.sessions[t]); }
    forall w | w in s1.workspaces ensures ActiveAdmins(s1, w) != {} {
      assert ActiveAdmins(s1, w) == ActiveAdmins(s, w);
    }
  }

  /** The state before the user row is written: an administrator may still be missing in the new workspace. */
  ghost predicate Awaits(s: State, w: nat, role: Role) {
    && Linked(s) && SessionsOk(s) && w in s.workspaces
    && forall x | x in s.workspaces :: ActiveAdmins(s, x) != {} || (x == w && role == Admin)
  }

  lemma AddedRow(s: State, u: nat, row: User)
    requires SessionsOk(s) && u !in s.users && row.deactivatedAt.None?
    ensures SaveUser(s, u, row, None) == s.(users := s.users[u := row])
  {
    forall t | t in s.sessions ensures s.sessions[t].user != Some(u) { assert SessionOk(s, s.sessions[t]); }
    assert WithRole(s.sessions, u, row.role) == s.sessions;
  }

  lemma AddedSessionsOk(s: State, u: nat, row: User)
    requires SessionsOk(s) && u !in s.users
    ensures SessionsOk(s.(users := s.users[u := row]))
  {
    var s1 := s.(users := s.users[u := row]);
    forall t | t in s1.sessions ensures SessionOk(s1, s1.sessions[t]) { assert SessionOk(s, s.sessions[t]); }
  }

  lemma AddedLinked(s: State, u: nat, row: User)
    requires Linked(s) && u !in s.users
    requires row.identity in s.identities && row.workspace in s.workspaces && !PairTaken(s, row.identity, row.workspace)
    ensures Linked(s.(users := s.users[u := row]))
  {
  }

  lemma AdminStays(s: State, u: nat, row: User, w: nat, v: nat)
    requires v in ActiveAdmins(s, w) && u !in s.users
    ensures v in ActiveAdmins(s.(users := s.users[u := row]), w)
  {
  }

  /** Everything but the new workspace still has its administrators when a row is added to the users. */
  lemma AddedGoverned(s: State, u: nat, row: User)
    requires Awaits(s, row.workspace, row.role) && u !in s.users && row.deactivatedAt.None?
    ensures Governed(s.(users := s.users[u := row]))
  {
    var s1 := s.(users := s.users[u := row]);
    forall w | w in s1.workspaces ensures ActiveAdmins(s1, w) != {} {
      if w == row.workspace && row.role == Admin {
        assert u in ActiveAdmins(s1, w);
      } else {
        var v :| v in ActiveAdmins(s, w);
        AdminStays(s, u, row, w, v);
      }
    }
  }

  lemma IdentitySessionsOk(s: State, i: nat, email: string)
    requires SessionsOk(s) && i !in s.identities
    ensures SessionsOk(s.(identities := s.identities[i := email]))
  {
    var s1 := s.(identities := s.identities[i := email]);
    forall t | t in s1.sessions ensures SessionOk(s1, s1.sessions[t]) { assert SessionOk(s, s.sessions[t]); }
  }

  lemma IdentityLinked(s: State, i: nat, email: string)
    requires Linked(s) && i !in s.identities && IdentitiesWith(s, email) == {}
    ensures Linked(s.(identities := s.identities[i := email]))
  {
    assert forall j | j in s.identities && s.identities[j] == email :: j in IdentitiesWith(s, email);
  }

  lemma AddedIdentity(s: State, w: nat, role: Role, i: nat, email: string)
    requires Awaits(s, w, role) && i !in s.identities && IdentitiesWith(s, email) == {}
    ensures Awaits(s.(identities := s.identities[i := email]), w, role)
  {
    var s1 := s.(identities := s.identities[i := email]);
    IdentitySessionsOk(s, i, email);
    IdentityLinked(s, i, email);
    forall x ensures ActiveAdmins(s1, x) == ActiveAdmins(s, x) {}
  }

  lemma NobodyHas(s: State, email: string)
    requires First(IdentitiesWith(s, email)).None?
    ensures IdentitiesWith(s, email) == {} && email !in s.identities.Values
  {
    forall i | i in s.identities ensures s.identities[i] != email { assert i !in IdentitiesWith(s, email); }
  }

  lemma IdentityWhileAwaiting(s: State, w: nat, role: Role, email: string, newIdentity: nat)
    requires Awaits(s, w, role) && newIdentity !in s.identities
    ensures var (s1, i) := GetOrCreateIdentity(s, email, newIdentity);
      && Awaits(s1, w, role) && i in s1.identities && s1.identities[i] == email && s1 == s.(identities := s1.identities)
      && (forall j | j in s.identities :: j in s1.identities && s1.identities[j] == s.identities[j])
      && (email in s.identities.Values ==> s1 == s)
  {
    if First(IdentitiesWith(s, email)).None? {
      NobodyHas(s, email);
      AddedIdentity(s, w, role, newIdentity, email);
    }
  }

  /** An address is left as it is by the normalization exactly if it is usable, or empty. */
  lemma UsableExactly(email: string)
    ensures Usable(email) <==> email != "" && Normalized(email) == email
  {
    Text.StripExactly(email);
    Text.StripKeeps(email, '@');
    var stripped := Text.Strip(email);
    var n := Text.UpToLast(stripped, '@');
    assert n == 0 <==> '@' !in email by {
      assert stripped[0..] == stripped;
      if n > 0 { assert stripped[n - 1] in stripped; }
    }
    if n > 0 { NormalizedKeeps(email, stripped, n); }
  }

  /** Normalizing an address with a domain gives back the address exactly if stripping and lowering change nothing. */
  lemma NormalizedKeeps(email: string, stripped: string, n: nat)
    requires stripped == Text.Strip(email) && n <= |stripped|
    ensures stripped[..n] + Text.Lower(stripped[n..]) == email <==>
      stripped == email && Text.AllLower(email[if n <= |email| then n else 0..])
  {
    var domain := stripped[n..];
    Text.LowerExactly(domain);
    assert stripped == stripped[..n] + domain;
    if stripped[..n] + Text.Lower(domain) == email {
      assert |email| == |stripped|;
      Text.SameLengthStrips(email);
      assert domain == Text.Lower(domain);
    }
  }

  /** The identity has no user in the workspace, active or not. */
  ghost predicate NeverThere(s: State, identity: nat, w: nat) {
    forall u | u in s.users && s.users[u].workspace == w :: s.users[u].identity != identity
  }

  /** One user and one session are added, nothing else. */
  predicate Admitted(s: State, s1: State, identity: nat, w: nat, role: Role, u: nat, newToken: nat, now: int) {
    && s1.users == s.users[u := User(identity, w, role, now, None)]
    && s1.sessions == s.sessions[newToken := Session(identity, Some(u), Some(w), Some(role), now + 2592000)]
    && s1.workspaces == s.workspaces && s1.identities == s.identities
  }

  /** The identity found or made for the normalized address is the caller's exactly if his address is usable. */
  lemma OwnIdentity(s: State, w: nat, role: Role, identity: nat, newIdentity: nat)
    requires Awaits(s, w, role) && identity in s.identities && newIdentity !in s.identities
    requires s.identities[identity] != ""
    ensures var (s1, i) := GetOrCreateIdentity(s, Normalized(s.identities[identity]), newIdentity);
      && Awaits(s1, w, role) && i in s1.identities && identity in s1.identities && s1 == s.(identities := s1.identities)
      && (i == identity <==> Usable(s.identities[identity]))
      && (i == identity ==> s1 == s)
  {
    var email := Normalized(s.identities[identity]);
    UsableExactly(s.identities[identity]);
    IdentityWhileAwaiting(s, w, role, email, newIdentity);
    if email == s.identities[identity] { assert email in s.identities.Values; }
  }

  lemma MadeUser(s: State, w: nat, role: Role, identity: nat, u: nat, now: int)
    requires Awaits(s, w, role) && identity in s.identities && u !in s.users && !PairTaken(s, identity, w)
    ensures var row := User(identity, w, role, now, None);
      SaveUser(s, u, row, None) == s.(users := s.users[u := row]) && Inv(s.(users := s.users[u := row]))
  {
    var row := User(identity, w, role, now, None);
    AddedRow(s, u, row);
    AddedSessionsOk(s, u, row);
    AddedLinked(s, u, row);
    AddedGoverned(s, u, row);
  }

  /** A user is made for some identity; it is the caller's, and nothing else changes, exactly if his address is
      usable. */
  lemma CreateUserOutcome(s: State, w: nat, role: Role, identity: nat, u: nat, newIdentity: nat,
      now: int) returns (i: nat)
    requires Awaits(s, w, role) && identity in s.identities && u !in s.users && newIdentity !in s.identities
    ensures var r := CreateUser(s, s.identities[identity], w, role, u, newIdentity, now);
      && (r.Ok? <==> s.identities[identity] != "" && !PairTaken(s, i, w))
      && (r.Ok? ==> Inv(r.value) && identity in r.value.identities)
      && (r.Ok? ==> r.value.sessions == s.sessions && r.value.workspaces == s.workspaces)
      && (r.Ok? ==> r.value.users == s.users[u := User(i, w, role, now, None)])
      && (i == identity ==> s.identities[identity] != "" && (r.Ok? ==> r.value.identities == s.identities))
    ensures i == identity <==> Usable(s.identities[identity])
  {
    if s.identities[identity] == "" {
      i := identity + 1;
    } else {
      var (s1, found) := GetOrCreateIdentity(s, Normalized(s.identities[identity]), newIdentity);
      i := found;
      OwnIdentity(s, w, role, identity, newIdentity);
      if !PairTaken(s1, i, w) { MadeUser(s1, w, role, i, u, now); }
    }
  }

  /**
   * Admission succeeds exactly for an identity whose stored address is usable and that has no user, active or
   * not, in the workspace; otherwise the transaction leaves nothing behind.
   */
  lemma AdmissionOutcome(s: State, s0: State, identity: nat, w: nat, role: Role, u: nat, newIdentity: nat,
      newToken: nat, now: int)
    requires Awaits(s, w, role) && identity in s.identities && u !in s.users && newIdentity !in s.identities
    ensures var o := Admit(s, s0, identity, w, role, u, newIdentity, newToken, now);
      && (o.error.None? <==> Usable(s.identities[identity]) && NeverThere(s, identity, w))
      && (o.error.None? ==> Inv(o.state) && Admitted(s, o.state, identity, w, role, u, newToken, now))
      && (o.error.Some? ==> o.state == s0)
  {
    var i := CreateUserOutcome(s, w, role, identity, u, newIdentity, now);
    var r := CreateUser(s, s.identities[identity], w, role, u, newIdentity, now);
    if r.Ok? { OpeningKeeps(r.value, newToken, identity, Some(u), now); }
  }

  /** Why an admission fails: an empty address; a user in the workspace already; or, for an unusable address only, a
      session that contradicts the new user. */
  lemma AdmissionErrors(s: State, s0: State, identity: nat, w: nat, role: Role, u: nat, newIdentity: nat,
      newToken: nat, now: int)
    requires Awaits(s, w, role) && identity in s.identities && u !in s.users && newIdentity !in s.identities
    ensures var o := Admit(s, s0, identity, w, role, u, newIdentity, newToken, now);
      && (o.error == Some(ValueError) <==> s.identities[identity] == "")
      && (o.error == Some(IntegrityError) ==> exists v :: v in s.users && s.users[v].workspace == w)
      && (o.error == Some(ValidationError) ==> s.identities[identity] != "" && !Usable(s.identities[identity]))
      && o.error in {None, Some(ValueError), Some(IntegrityError), Some(ValidationError)}
  {
    var i := CreateUserOutcome(s, w, role, identity, u, newIdentity, now);
    var r := CreateUser(s, s.identities[identity], w, role, u, newIdentity, now);
    if r.Ok? { OpeningKeeps(r.value, newToken, identity, Some(u), now); }
  }

  // ---------- Single steps ----------

  lemma LoginKeeps(s: State, email: string, newIdentity: nat, newToken: nat, now: int)
    requires Inv(s) && newIdentity !in s.identities
    ensures var o := Login(s, email, newIdentity, newToken, now);
      Inv(o.state) && o.error.None? && o.state.users == s.users && o.state.workspaces == s.workspaces
  {
    NewIdentityKeeps(s, email, newIdentity);
    var (s1, i) := GetOrCreateIdentity(s, email, newIdentity);
    var u := FirstJoined(s1, i);
    assert u.Some? ==> u.value in ActiveUsersOf(s1, i);
    OpeningKeeps(s1, newToken, i, u, now);
  }

  lemma FirstJoinedIs(s: State, identity: nat)
    ensures var u := FirstJoined(s, identity);
      && (u.None? <==> ActiveUsersOf(s, identity) == {})
      && (u.Some? ==> u.value in ActiveUsersOf(s, identity))
      && (u.Some? ==> forall v | v in ActiveUsersOf(s, identity) :: s.users[u.value].joinedAt <= s.users[v].joinedAt)
  {
    var at := map u | u in s.users :: -s.users[u].joinedAt;
    assert forall v | v in ActiveUsersOf(s, identity) :: at[v] == -s.users[v].joinedAt;
  }

  lemma LoginOpens(s: State, email: string, newIdentity: nat, newToken: nat, now: int)
    requires Inv(s) && newIdentity !in s.identities
    ensures var (s0, i) := GetOrCreateIdentity(s, email, newIdentity);
      && i in s0.identities && s0.identities[i] == email && s0.users == s.users
      && Login(s, email, newIdentity, newToken, now).state
        == s0.(sessions := s0.sessions[newToken := NewSession(s0, i, FirstJoined(s0, i), now)])
  {
    NewIdentityKeeps(s, email, newIdentity);
    LoginKeeps(s, email, newIdentity, newToken, now);
  }

  /** The user is the active one of the identity that joined first. */
  ghost predicate JoinedFirst(s: State, identity: nat, u: nat) {
    && u in s.users && s.users[u].identity == identity && s.users[u].deactivatedAt.None?
    && forall v | v in s.users && s.users[v].identity == identity && s.users[v].deactivatedAt.None? ::
      s.users[u].joinedAt <= s.users[v].joinedAt
  }

  /** An accepted login opens a session of thirty days: for the active user of the identity that joined first, or for
      the identity alone exactly if it has no active user. It makes an identity for an unknown address, and nothing
      else changes. */
  lemma LoginOutcome(s: State, email: string, newIdentity: nat, newToken: nat, now: int)
    requires Inv(s) && newIdentity !in s.identities
    ensures var o := Login(s, email, newIdentity, newToken, now); var s1 := o.state;
      && o.error.None? && newToken in s1.sessions
      && var x := s1.sessions[newToken];
         && s1.users == s.users && s1.workspaces == s.workspaces && s1.sessions == s.sessions[newToken := x]
         && s1.identities == (if email in s.identities.Values then s.identities else s.identities[newIdentity := email])
         && x.expiry == now + 2592000
         && x.identity in s1.identities && s1.identities[x.identity] == email
         && match x.user
            case None =>
              && x.workspace.None? && x.role.None?
              && forall v | v in s.users && s.users[v].identity == x.identity :: s.users[v].deactivatedAt.Some?
            case Some(u) =>
              && JoinedFirst(s, x.identity, u)
              && x.workspace == Some(s.users[u].workspace) && x.role == Some(s.users[u].role)
  {
    LoginKeeps(s, email, newIdentity, newToken, now);
    LoginOpens(s, email, newIdentity, newToken, now);
    var (s0, i) := GetOrCreateIdentity(s, email, newIdentity);
    KnownAddress(s, email, newIdentity);
    FirstJoinedIs(s0, i);
    forall v ensures v in ActiveUsersOf(s0, i) <==>
      v in s.users && s.users[v].identity == i && s.users[v].deactivatedAt.None? {}
  }

  lemma KnownAddress(s: State, email: string, newIdentity: nat)
    ensures GetOrCreateIdentity(s, email, newIdentity).0.identities
      == if email in s.identities.Values then s.identities else s.identities[newIdentity := email]
  {
    if First(IdentitiesWith(s, email)).None? { NobodyHas(s, email); }
  }

  /** Signing up succeeds exactly for an address nobody has, and then adds an identity and a session of thirty days that
      names the identity alone. */
  lemma SignUpOutcome(s: State, email: string, newIdentity: nat, newToken: nat, now: int)
    ensures SignUp(s, email, newIdentity, newToken, now) ==
      if email in s.identities.Values then Outcome(s, Some(EmailTaken))
      else Outcome(s.(identities := s.identities[newIdentity := email],
        sessions := s.sessions[newToken := Session(newIdentity, None, None, None, now + 2592000)]), None)
  {
    if IdentitiesWith(s, email) == {} { NobodyHas(s, email); }
  }

  lemma SignUpKeeps(s: State, email: string, newIdentity: nat, newToken: nat, now: int)
    requires Inv(s) && newIdentity !in s.identities
    ensures var o := SignUp(s, email, newIdentity, newToken, now);
      Inv(o.state) && o.state.users == s.users && o.state.workspaces == s.workspaces
  {
    if IdentitiesWith(s, email) == {} {
      NewIdentityKeeps(s, email, newIdentity);
      var s1 := s.(identities := s.identities[newIdentity := email]);
      assert GetOrCreateIdentity(s, email, newIdentity) == (s1, newIdentity);
      OpeningKeeps(s1, newToken, newIdentity, None, now);
    }
  }

  lemma CreatedAwaits(s: State, w: nat)
    requires Inv(s) && w !in s.workspaces
    ensures var s1 := s.(workspaces := s.workspaces + {w});
      Awaits(s1, w, Admin) && forall i :: !PairTaken(s1, i, w)
  {
    var s1 := s.(workspaces := s.workspaces + {w});
    forall t | t in s1.sessions ensures SessionOk(s1, s1.sessions[t]) { assert SessionOk(s, s.sessions[t]); }
    forall x | x in s1.workspaces ensures ActiveAdmins(s1, x) != {} || (x == w && Admin == Admin) {
      assert ActiveAdmins(s1, x) == ActiveAdmins(s, x);
    }
  }

  /** Creating a workspace succeeds exactly for a live token of an identity with a usable address; the errors say what
      else is the matter, and then nothing is left. */
  lemma CreateWorkspaceOutcome(s: State, token: nat, w: nat, u: nat, newIdentity: nat, newToken: nat, now: int)
    requires Inv(s) && w !in s.workspaces && u !in s.users && newIdentity !in s.identities
    ensures var o := CreateWorkspace(s, token, w, u, newIdentity, newToken, now); var x := AuthIdentity(s, token, now);
      && o.error == (if x.None? then Some(InvalidToken)
                     else if s.identities[x.value.identity] == "" then Some(ValueError)
                     else if Usable(s.identities[x.value.identity]) then None else Some(ValidationError))
      && (o.error.Some? ==> o.state == s)
      && (o.error.None? ==> Inv(o.state) && ActiveAdmins(o.state, w) == {u})
      && (o.error.None? ==>
        Admitted(s.(workspaces := s.workspaces + {w}), o.state, x.value.identity, w, Admin, u, newToken, now))
  {
    var x := AuthIdentity(s, token, now);
    if x.Some? {
      CreatedAwaits(s, w);
      var s1 := s.(workspaces := s.workspaces + {w});
      AdmissionOutcome(s1, s, x.value.identity, w, Admin, u, newIdentity, newToken, now);
      AdmissionErrors(s1, s, x.value.identity, w, Admin, u, newIdentity, newToken, now);
    }
  }

  /** The identity has an active user in the workspace. */
  ghost predicate IsMember(s: State, identity: nat, w: nat) {
    exists u :: u in s.users && s.users[u].identity == identity && s.users[u].workspace == w
      && s.users[u].deactivatedAt.None?
  }

  lemma MembersAre(s: State, identity: nat, w: nat)
    ensures IsMember(s, identity, w) <==> ActiveUsersIn(s, identity, w) != {}
  {
    if u :| u in ActiveUsersIn(s, identity, w) { assert IsMember(s, identity, w); }
    assert forall u | u in s.users && s.users[u].identity == identity && s.users[u].workspace == w
      && s.users[u].deactivatedAt.None? :: u in ActiveUsersIn(s, identity, w);
  }

  /**
   * Joining succeeds exactly for a live token of an admitted identity whose address is usable and which never had a
   * user in the workspace. A deactivated user cannot come back this way: the insert violates the uniqueness of
   * identity and workspace. The other errors come in the order of the checks.
   */
  lemma JoinOutcome(s: State, token: nat, w: nat, admitted: bool, u: nat, newIdentity: nat, newToken: nat, now: int)
    requires Inv(s) && u !in s.users && newIdentity !in s.identities
    ensures var o := Join(s, token, w, admitted, u, newIdentity, newToken, now); var x := AuthIdentity(s, token, now);
      && (o.error.None? <==>
        x.Some? && w in s.workspaces && admitted && Usable(s.identities[x.value.identity])
        && NeverThere(s, x.value.identity, w))
      && (o.error.Some? ==> o.state == s)
      && (o.error.None? ==> Inv(o.state) && Admitted(s, o.state, x.value.identity, w, Member, u, newToken, now))
      && (o.error == Some(InvalidToken) <==> x.None?)
      && (o.error in {Some(ValueError), Some(ValidationError)} ==> !Usable(s.identities[x.value.identity]))
      && (o.error == Some(WorkspaceNotFound) <==> x.Some? && w !in s.workspaces)
      && (o.error == Some(AlreadyMember) <==> x.Some? && w in s.workspaces && IsMember(s, x.value.identity, w))
      && (o.error == Some(NotAdmitted) <==>
        x.Some? && w in s.workspaces && !IsMember(s, x.value.identity, w) && !admitted)
  {
    var x := AuthIdentity(s, token, now);
    if x.Some? {
      var i := x.value.identity;
      MembersAre(s, i, w);
      if w in s.workspaces {
        assert Awaits(s, w, Member);
        AdmissionOutcome(s, s, i, w, Member, u, newIdentity, newToken, now);
        AdmissionErrors(s, s, i, w, Member, u, newIdentity, newToken, now);
      }
    }
  }

  lemma EnterKeeps(s: State, token: nat, w: nat, newToken: nat, now: int)
    requires Inv(s)
    ensures var o := LoginWorkspace(s, token, w, newToken, now);
      Inv(o.state) && o.state.users == s.users && o.state.workspaces == s.workspaces && o.error != Some(ValidationError)
  {
    var x := AuthIdentity(s, token, now);
    if x.Some? {
      var u := First(ActiveUsersIn(s, x.value.identity, w));
      if u.Some? { OpeningKeeps(s, newToken, x.value.identity, u, now); }
    }
  }

  /** Entering a workspace succeeds exactly for a live token of an identity with an active user there; it opens a
      session of thirty days for that user and changes nothing else. */
  lemma EnterOutcome(s: State, token: nat, w: nat, newToken: nat, now: int)
    requires Inv(s)
    ensures var o := LoginWorkspace(s, token, w, newToken, now); var x := AuthIdentity(s, token, now);
      && o.error == (if x.None? then Some(InvalidToken) else if IsMember(s, x.value.identity, w) then None
                     else Some(WorkspaceNotFound))
      && (o.error.Some? ==> o.state == s)
      && forall u | o.error.None? && u in s.users && s.users[u].identity == x.value.identity
        && s.users[u].workspace == w ::
        o.state == s.(sessions := s.sessions[newToken :=
          Session(x.value.identity, Some(u), Some(w), Some(s.users[u].role), now + 2592000)])
  {
    EnterKeeps(s, token, w, newToken, now);
    var x := AuthIdentity(s, token, now);
    if x.Some? { MembersAre(s, x.value.identity, w); }
  }

  /** A session that authenticates carries the role of an active user of its workspace. */
  lemma HolderIsActive(s: State, token: nat, now: int)
    requires Inv(s) && AuthWorkspace(s, token, now).Some?
    ensures var x := AuthWorkspace(s, token, now).value;
      IsActiveIn(s, x.user.value, x.workspace.value) && x.role == Some(s.users[x.user.value].role)
  {
    assert SessionOk(s, s.sessions[token]);
  }

  /** The two saves of an existing user: each stamps one field and touches only that user's sessions. */
  lemma SavedRow(s: State, u: nat, role: Role, at: int)
    requires u in s.users
    ensures SaveUser(s, u, s.users[u].(role := role), Some({RoleField})) ==
      s.(users := s.users[u := s.users[u].(role := role)], sessions := WithRole(s.sessions, u, role))
    ensures SaveUser(s, u, s.users[u].(deactivatedAt := Some(at)), Some({DeactivatedAtField})) ==
      s.(users := s.users[u := s.users[u].(deactivatedAt := Some(at))], sessions := Without(s.sessions, u))
  {
  }

  lemma RoleSessionsOk(s: State, u: nat, role: Role)
    requires SessionsOk(s) && u in s.users
    ensures SessionsOk(s.(users := s.users[u := s.users[u].(role := role)], sessions := WithRole(s.sessions, u, role)))
  {
    var s1 := s.(users := s.users[u := s.users[u].(role := role)], sessions := WithRole(s.sessions, u, role));
    forall t | t in s1.sessions ensures SessionOk(s1, s1.sessions[t]) { assert SessionOk(s, s.sessions[t]); }
  }

  lemma DeactivationSessionsOk(s: State, u: nat, at: int)
    requires SessionsOk(s) && u in s.users
    ensures SessionsOk(s.(users := s.users[u := s.users[u].(deactivatedAt := Some(at))],
      sessions := Without(s.sessions, u)))
  {
    var s1 := s.(users := s.users[u := s.users[u].(deactivatedAt := Some(at))], sessions := Without(s.sessions, u));
    forall t | t in s1.sessions ensures SessionOk(s1, s1.sessions[t]) { assert SessionOk(s, s.sessions[t]); }
  }

  lemma ChangeLinked(s: State, u: nat, row: User, sessions: map<nat, Session>)
    requires Linked(s) && u in s.users && row.identity == s.users[u].identity && row.workspace == s.users[u].workspace
    ensures Linked(s.(users := s.users[u := row], sessions := sessions))
  {
  }

  /** Whatever happens to another user of the workspace, the acting administrator remains. */
  lemma ChangeGoverned(s: State, actor: nat, target: nat, row: User, sessions: map<nat, Session>)
    requires Governed(s) && actor in s.users && target in s.users && actor != target
    requires s.users[actor].role == Admin && s.users[actor].deactivatedAt.None?
    requires s.users[actor].workspace == s.users[target].workspace == row.workspace
    ensures Governed(s.(users := s.users[target := row], sessions := sessions))
  {
    var s1 := s.(users := s.users[target := row], sessions := sessions);
    forall w | w in s1.workspaces ensures ActiveAdmins(s1, w) != {} {
      if w == s.users[actor].workspace {
        assert actor in ActiveAdmins(s1, w);
      } else {
        var v :| v in ActiveAdmins(s, w);
        assert v in ActiveAdmins(s1, w);
      }
    }
  }

  /** The token's holder is an active administrator, and the target another active user of his workspace. */
  predicate MayChange(s: State, token: nat, target: nat, now: int) {
    && token in s.sessions && now < s.sessions[token].expiry && s.sessions[token].user.Some?
    && var actor := s.sessions[token].user.value;
       && actor in s.users && s.users[actor].deactivatedAt.None? && s.users[actor].role == Admin
       && actor != target && target in s.users && s.users[target].deactivatedAt.None?
       && s.users[target].workspace == s.users[actor].workspace
  }

  /** The endpoint's own tests, on copies in the session, accept exactly these changes. */
  lemma ChangeAccepted(s: State, token: nat, target: nat, role: Option<Role>, now: int)
    requires Inv(s)
    ensures UpdateRole(s, token, target, role, now).error.None? <==> role.Some? && MayChange(s, token, target, now)
    ensures Deactivate(s, token, target, now).error.None? <==> MayChange(s, token, target, now)
  {
    if token in s.sessions { assert SessionOk(s, s.sessions[token]); }
  }

  /** Why a change is refused, in terms of the row of the token's user. */
  lemma ChangeRefused(s: State, token: nat, target: nat, role: Option<Role>, now: int)
    requires Inv(s)
    ensures var (update, deactivate) := (UpdateRole(s, token, target, role, now).error,
        Deactivate(s, token, target, now).error);
      if AuthWorkspace(s, token, now).None? then update == deactivate == Some(InvalidToken) else
      var actor := s.sessions[token].user.value;
      && actor in s.users
      && if s.users[actor].role != Admin then update == deactivate == Some(Forbidden)
         else if actor == target then update == Some(OwnRole) && deactivate == Some(OwnDeactivation)
         else
           && (update == Some(InvalidRole) <==> role.None?)
           && (role.Some? ==> update == deactivate)
           && deactivate == if MayChange(s, token, target, now) then None else Some(UserNotFound)
  {
    if token in s.sessions { assert SessionOk(s, s.sessions[token]); }
  }

  lemma RoleChangeKeepsInv(s: State, actor: nat, target: nat, role: Role)
    requires Inv(s) && actor in s.users && target in s.users && actor != target
    requires s.users[actor].role == Admin && s.users[actor].deactivatedAt.None?
    requires s.users[actor].workspace == s.users[target].workspace
    ensures Inv(s.(users := s.users[target := s.users[target].(role := role)],
      sessions := WithRole(s.sessions, target, role)))
  {
    var row := s.users[target].(role := role);
    RoleSessionsOk(s, target, role);
    ChangeLinked(s, target, row, WithRole(s.sessions, target, role));
    ChangeGoverned(s, actor, target, row, WithRole(s.sessions, target, role));
  }

  lemma RoleChanged(s: State, token: nat, target: nat, role: Role, now: int)
    requires Inv(s) && MayChange(s, token, target, now)
    ensures UpdateRole(s, token, target, Some(role), now).state ==
      s.(users := s.users[target := s.users[target].(role := role)], sessions := WithRole(s.sessions, target, role))
  {
    ChangeAccepted(s, token, target, Some(role), now);
    SavedRow(s, target, role, now);
  }

  /**
   * A role change goes through exactly when an active administrator changes another active user of his
   * workspace; from then on every session of that user, and no other, carries the new role.
   */
  lemma UpdateRoleOutcome(s: State, token: nat, target: nat, role: Option<Role>, now: int)
    requires Inv(s)
    ensures var o := UpdateRole(s, token, target, role, now);
      && Inv(o.state)
      && (o.error.None? <==> role.Some? && MayChange(s, token, target, now))
      && (o.error.Some? ==> o.state == s)
      && (o.error.None? ==>
        o.state == s.(users := s.users[target := s.users[target].(role := role.value)], sessions := o.state.sessions))
      && (o.error.None? ==> o.state.sessions.Keys == s.sessions.Keys)
      && (forall t | o.error.None? && t in s.sessions ::
        o.state.sessions[t] == if s.sessions[t].user == Some(target) then s.sessions[t].(role := role)
                               else s.sessions[t])
  {
    ChangeAccepted(s, token, target, role, now);
    if role.Some? && MayChange(s, token, target, now) {
      RoleChanged(s, token, target, role.value, now);
      RoleChangeKeepsInv(s, s.sessions[token].user.value, target, role.value);
    }
  }

  /** The same for a deactivation; it leaves no session of the user. */
  lemma DeactivateOutcome(s: State, token: nat, target: nat, now: int)
    requires Inv(s)
    ensures var o := Deactivate(s, token, target, now);
      && Inv(o.state)
      && (o.error.None? <==> MayChange(s, token, target, now))
      && (o.error.Some? ==> o.state == s)
      && (o.error.None? ==> o.state == s.(users := s.users[target := s.users[target].(deactivatedAt := Some(now))],
        sessions := o.state.sessions))
      && (forall t | o.error.None? ::
        t in o.state.sessions <==> t in s.sessions && s.sessions[t].user != Some(target))
      && (forall t | o.error.None? && t in o.state.sessions :: o.state.sessions[t] == s.sessions[t])
  {
    ChangeAccepted(s, token, target, None, now);
    if MayChange(s, token, target, now) {
      var row := s.users[target].(deactivatedAt := Some(now));
      SavedRow(s, target, s.users[target].role, now);
      DeactivationSessionsOk(s, target, now);
      ChangeLinked(s, target, row, Without(s.sessions, target));
      ChangeGoverned(s, s.sessions[token].user.value, target, row, Without(s.sessions, target));
    }
  }

  lemma LogoutKeeps(s: State, token: nat, now: int)
    requires Inv(s)
    ensures Inv(Logout(s, token, now).state)
  {
    var s1 := Logout(s, token, now).state;
    forall t | t in s1.sessions ensures SessionOk(s1, s1.sessions[t]) { assert SessionOk(s, s.sessions[t]); }
    forall w | w in s1.workspaces ensures ActiveAdmins(s1, w) != {} {
      assert ActiveAdmins(s1, w) == ActiveAdmins(s, w);
    }
  }

  /** Logging out succeeds exactly for a token that authenticates a member. Its session goes, so that the token
      authenticates nothing at any time, and nothing else does. */
  lemma LogoutOutcome(s: State, token: nat, now: int)
    requires Inv(s)
    ensures var o := Logout(s, token, now);
      && o.error == (if token in s.sessions && now < s.sessions[token].expiry && s.sessions[token].user.Some? then None
                     else Some(InvalidToken))
      && (o.error.Some? ==> o.state == s)
      && (o.error.None? ==> o.state == s.(sessions := o.state.sessions) && token !in o.state.sessions)
      && (forall t | o.error.None? && t != token ::
        (t in o.state.sessions <==> t in s.sessions) && (t in s.sessions ==> o.state.sessions[t] == s.sessions[t]))
      && (o.error.None? ==>
        forall at :: AuthIdentity(o.state, token, at).None? && AuthWorkspace(o.state, token, at).None?)
  {
    if token in s.sessions { assert SessionOk(s, s.sessions[token]); }
  }

  // ---------- Runs ----------

  lemma StepKeepsInv(s: State, e: Step)
    requires Inv(s) && Possible(s, e)
    ensures Inv(Next(s, e))
  {
    match e
    case SigningUp(email, i, t, now) => SignUpKeeps(s, email, i, t, now);
    case LoggingIn(email, i, t, now) => LoginKeeps(s, email, i, t, now);
    case Creating(token, w, u, i, t, now) => CreateWorkspaceOutcome(s, token, w, u, i, t, now);
    case Entering(token, w, t, now) => EnterKeeps(s, token, w, t, now);
    case Joining(token, w, admitted, u, i, t, now) => JoinOutcome(s, token, w, admitted, u, i, t, now);
    case ChangingRole(token, target, role, now) => UpdateRoleOutcome(s, token, target, role, now);
    case Deactivating(token, target, now) => DeactivateOutcome(s, token, target, now);
    case LoggingOut(token, now) => LogoutKeeps(s, token, now);
  }

  lemma {:induction false} RunKeepsInv(s: State, run: seq<Step>)
    requires Inv(s) && PossibleRun(s, run)
    ensures Inv(Run(s, run))
    decreases |run|
  {
    if run != [] {
      StepKeepsInv(s, run[0]);
      RunKeepsInv(Next(s, run[0]), run[1..]);
    }
  }

  predicate Administers(s: State, u: nat, w: nat) {
    u in s.users && s.users[u].workspace == w && s.users[u].role == Admin && s.users[u].deactivatedAt.None?
  }

  /** Every workspace ever created keeps an active administrator, and no session outlives or contradicts its user. */
  lemma LastAdmin(run: seq<Step>)
    requires PossibleRun(EMPTY, run)
    ensures var s := Run(EMPTY, run);
      && (forall w | w in s.workspaces :: exists u :: Administers(s, u, w))
      && (forall t | t in s.sessions :: Agreeing(s, s.sessions[t]))
  {
    var s := Run(EMPTY, run);
    RunKeepsInv(EMPTY, run);
    forall w | w in s.workspaces ensures exists u :: Administers(s, u, w) {
      var u :| u in ActiveAdmins(s, w);
      assert Administers(s, u, w);
    }
    forall t | t in s.sessions ensures Agreeing(s, s.sessions[t]) { assert SessionOk(s, s.sessions[t]); }
  }

  /** The session names an active user with his identity, workspace and role, or none of the three. */
  predicate Agreeing(s: State, x: Session) {
    match x.user
    case None => x.workspace.None? && x.role.None?
    case Some(u) =>
      && u in s.users && s.users[u].deactivatedAt.None? && x.identity == s.users[u].identity
      && x.workspace == Some(s.users[u].workspace) && x.role == Some(s.users[u].role)
  }

  lemma OneElement(a: set<nat>, x: nat)
    requires x in a
    ensures |a| == 1 <==> a == {x}
  {
    if |a| == 1 {
      assert |a - {x}| == 0;
      assert a == {x} + (a - {x});
    }
  }

  /**
   * For the holder of a session, the shortcut for solo administrators applies exactly when nobody else could
   * approve the key: he is the only active administrator of his workspace.
   */
  lemma SoloAdminIsAlone(s: State, token: nat, now: int)
    requires Inv(s) && AuthWorkspace(s, token, now).Some?
    ensures var x := AuthWorkspace(s, token, now).value;
      IsSoloAdmin(s, x.workspace.value, x.user.value) <==>
        forall u :: u == x.user.value <==> Administers(s, u, x.workspace.value)
  {
    HolderIsActive(s, token, now);
    forall u, w ensures u in ActiveAdmins(s, w) <==> Administers(s, u, w) {}
    var x := AuthWorkspace(s, token, now).value;
    if s.users[x.user.value].role == Admin {
      OneElement(ActiveAdmins(s, x.workspace.value), x.user.value);
    } else {
      assert x.user.value !in ActiveAdmins(s, x.workspace.value);
    }
  }

  /** Only four endpoints write users at all. */
  lemma UsersStay(s: State, e: Step)
    requires Inv(s) && Possible(s, e)
    requires e.SigningUp? || e.LoggingIn? || e.Entering? || e.LoggingOut?
    ensures Next(s, e).users == s.users
  {
    match e
    case SigningUp(email, i, t, now) => SignUpKeeps(s, email, i, t, now);
    case LoggingIn(email, i, t, now) => LoginKeeps(s, email, i, t, now);
    case Entering(token, w, t, now) => EnterKeeps(s, token, w, t, now);
    case LoggingOut(token, now) =>
  }

  lemma CreateKeepsRow(s: State, token: nat, w: nat, v: nat, newIdentity: nat, newToken: nat, now: int, u: nat)
    requires Inv(s) && w !in s.workspaces && v !in s.users && newIdentity !in s.identities && u in s.users
    ensures var users := CreateWorkspace(s, token, w, v, newIdentity, newToken, now).state.users;
      u in users && users[u] == s.users[u]
  {
    CreateWorkspaceOutcome(s, token, w, v, newIdentity, newToken, now);
  }

  lemma JoinKeepsRow(s: State, token: nat, w: nat, admitted: bool, v: nat, newIdentity: nat, newToken: nat, now: int,
      u: nat)
    requires Inv(s) && v !in s.users && newIdentity !in s.identities && u in s.users
    ensures var users := Join(s, token, w, admitted, v, newIdentity, newToken, now).state.users;
      u in users && users[u] == s.users[u]
  {
    JoinOutcome(s, token, w, admitted, v, newIdentity, newToken, now);
  }

  lemma RoleRow(s: State, token: nat, target: nat, role: Option<Role>, now: int, u: nat)
    requires Inv(s) && u in s.users
    ensures var users := UpdateRole(s, token, target, role, now).state.users;
      && u in users
      && (users[u] == s.users[u]
          || (target == u && role.Some? && MayChange(s, token, u, now) && users[u] == s.users[u].(role := role.value)))
  {
    UpdateRoleOutcome(s, token, target, role, now);
  }

  lemma DeactivatedRow(s: State, token: nat, target: nat, now: int, u: nat)
    requires Inv(s) && u in s.users
    ensures var users := Deactivate(s, token, target, now).state.users;
      && u in users
      && (users[u] == s.users[u]
          || (target == u && MayChange(s, token, u, now) && users[u] == s.users[u].(deactivatedAt := Some(now))))
  {
    DeactivateOutcome(s, token, target, now);
  }

  /** An administrator's role change or deactivation of this user. */
  predicate ChangedByAdmin(s: State, e: Step, u: nat, row: User)
    requires u in s.users
  {
    match e
    case ChangingRole(token, target, role, now) =>
      target == u && role.Some? && MayChange(s, token, u, now) && row == s.users[u].(role := role.value)
    case Deactivating(token, target, now) =>
      target == u && MayChange(s, token, u, now) && row == s.users[u].(deactivatedAt := Some(now))
    case _ => false
  }

  /** Nothing but another administrator of the workspace ever changes a user's row. */
  lemma RowsChange(s: State, e: Step, u: nat)
    requires Inv(s) && Possible(s, e) && u in s.users
    ensures u in Next(s, e).users
    ensures Next(s, e).users[u] == s.users[u] || ChangedByAdmin(s, e, u, Next(s, e).users[u])
  {
    match e
    case ChangingRole(token, target, role, now) => RoleRow(s, token, target, role, now, u);
    case Deactivating(token, target, now) => DeactivatedRow(s, token, target, now, u);
    case Creating(token, w, v, i, t, now) => CreateKeepsRow(s, token, w, v, i, t, now, u);
    case Joining(token, w, admitted, v, i, t, now) => JoinKeepsRow(s, token, w, admitted, v, i, t, now, u);
    case _ => UsersStay(s, e);
  }

  /**
   * Deactivation is final: in no continuation does the user, or another user of the same identity in that
   * workspace, hold a session there.
   */
  lemma {:induction false} DeactivatedForever(s: State, u: nat, run: seq<Step>)
    requires Inv(s) && PossibleRun(s, run) && u in s.users && s.users[u].deactivatedAt.Some?
    ensures var s1 := Run(s, run);
      && u in s1.users && s1.users[u] == s.users[u]
      && forall t | t in s1.sessions && s1.sessions[t].identity == s.users[u].identity ::
        s1.sessions[t].workspace != Some(s.users[u].workspace)
    decreases |run|
  {
    if run == [] {
      forall t | t in s.sessions && s.sessions[t].identity == s.users[u].identity
        ensures s.sessions[t].workspace != Some(s.users[u].workspace) {
        assert SessionOk(s, s.sessions[t]);
      }
    } else {
      RowsChange(s, run[0], u);
      StepKeepsInv(s, run[0]);
      DeactivatedForever(Next(s, run[0]), u, run[1..]);
    }
  }

  /** Whoever signs up can create a workspace exactly if the address is usable: the user is made for the normalized
      address. */
  lemma SignedUpMayCreate(email: string, token: nat, w: nat, u: nat, newToken: nat)
    requires token != newToken
    ensures var run := [SigningUp(email, 0, token, 0), Creating(token, w, u, 1, newToken, 0)];
      && PossibleRun(EMPTY, run)
      && (Apply(Next(EMPTY, run[0]), run[1]).error.None? <==> Usable(email))
      && (!Usable(email) ==> Run(EMPTY, run) == Next(EMPTY, run[0]))
  {
    var first, second := SigningUp(email, 0, token, 0), Creating(token, w, u, 1, newToken, 0);
    var s := Next(EMPTY, first);
    assert IdentitiesWith(EMPTY, email) == {};
    assert s.identities == map[0 := email] && AuthIdentity(s, token, 0).Some?;
    SignUpKeeps(EMPTY, email, 0, token, 0);
    CreateWorkspaceOutcome(s, token, w, u, 1, newToken, 0);
    assert [second][1..] == [] && [first, second][1..] == [second];
    assert Run(s, [second]) == Run(Next(s, second), []) == Next(s, second);
    assert PossibleRun(s, [second]);
  }

  lemma CapitalIsUnusable()
    ensures !Usable("ann@A.com")
  {
    var capital := "ann@A.com";
    Text.UpToLastIs(capital, '@', 4);
    assert capital[3] == '@' && capital[4..][0] == 'A';
  }

  lemma PaddedIsUnusable()
    ensures !Usable(" ann@a.com") && !Usable("ann@a.com ")
  {
    var padded, trailing := " ann@a.com", "ann@a.com ";
    assert padded[4] == trailing[3] == '@';
    assert padded[0] == ' ' && trailing[9] == ' ';
  }

  lemma CapitalInFrontIsUsable()
    ensures Usable("Ann@a.com")
  {
    var usable := "Ann@a.com";
    Text.UpToLastIs(usable, '@', 4);
    assert usable[4..] == "a.com";
  }

  lemma CapitalIsLowered()
    ensures Normalized("Ann@A.com") == "Ann@a.com"
  {
    var email := "Ann@A.com";
    assert email[0] == 'A' && email[8] == 'm';
    Text.StripExactly(email);
    Text.UpToLastIs(email, '@', 4);
    assert Normalized(email) == email[..4] + Text.Lower(email[4..]);
    assert Text.Lower(email[4..]) == "a.com" by { assert email[4..] == "A.com"; }
    assert email[..4] + "a.com" == "Ann@a.com";
  }

  /** Capitals in the domain, white space around the address, and the empty address, which signing up all accepts. */
  lemma UnusableAddresses()
    ensures !Usable("ann@A.com") && !Usable(" ann@a.com") && !Usable("ann@a.com ") && !Usable("")
    ensures Usable("Ann@a.com") && Normalized("Ann@A.com") == "Ann@a.com"
  {
    CapitalIsUnusable();
    PaddedIsUnusable();
    CapitalInFrontIsUsable();
    CapitalIsLowered();
  }
}
