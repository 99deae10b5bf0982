/** The membership endpoints as they run: tables updated in place, the save signal, and transactions that roll back. */
module Membership {
  import opened Common
  import MembershipModel
  import opened MM = MembershipModel
  import MR = MembershipRuns

  /** A created workspace has its creator as its only administrator; a failed creation changes nothing. */
  lemma CreatedAlone(s: State, token: nat, w: nat, u: nat, newIdentity: nat, newToken: nat, now: int)
    requires u !in s.users
    ensures var o := MembershipModel.CreateWorkspace(s, token, w, u, newIdentity, newToken, now);
      MR.Inv(s) && w !in s.workspaces && newIdentity !in s.identities ==>
        if o.error.None? then MR.Inv(o.state) && ActiveAdmins(o.state, w) == {u} else o.state == s
  {
    if MR.Inv(s) && w !in s.workspaces && newIdentity !in s.identities {
      MR.CreateWorkspaceOutcome(s, token, w, u, newIdentity, newToken, now);
    }
  }

  /** A new member is active in the workspace; a failed joining changes nothing. */
  lemma JoinedActive(s: State, token: nat, w: nat, admitted: bool, u: nat, newIdentity: nat, newToken: nat, now: int)
    requires u !in s.users
    ensures var o := MembershipModel.Join(s, token, w, admitted, u, newIdentity, newToken, now);
      MR.Inv(s) && newIdentity !in s.identities ==>
        if o.error.None?
        then MR.Inv(o.state) && u in o.state.users && u in ActiveUsersIn(o.state, o.state.users[u].identity, w)
        else o.state == s
  {
    if MR.Inv(s) && newIdentity !in s.identities {
      MR.JoinOutcome(s, token, w, admitted, u, newIdentity, newToken, now);
    }
  }

  class Service {
    var identities: map<nat, string>
    var workspaces: set<nat>
    var users: map<nat, User>
    var sessions: map<nat, Session>

    /** The tables as one value. */
    ghost function View(): State
      reads this
    {
      State(identities, workspaces, users, sessions)
    }

    constructor ()
      ensures View() == EMPTY
    {
      identities, workspaces, users, sessions := map[], {}, map[], map[];
    }

    /** First receiver: the role goes to all sessions of the user, if it may have been saved. */
    method SyncRoleToSessions(u: nat, instance: User, fields: Option<set<Field>>)
      modifies this`sessions
      ensures sessions ==
        if Touches(fields, RoleField) then WithRole(old(sessions), u, instance.role) else old(sessions)
    {
      if fields.Some? && RoleField !in fields.value { return; }
      sessions := map t | t in sessions ::
        if sessions[t].user == Some(u) then sessions[t].(role := Some(instance.role)) else sessions[t];
    }

    /** Second receiver: a deactivated user loses his sessions. */
    method RevokeSessions(u: nat, instance: User, fields: Option<set<Field>>)
      modifies this`sessions
      ensures sessions ==
        if Touches(fields, DeactivatedAtField) && instance.deactivatedAt.Some? then Without(old(sessions), u)
        else old(sessions)
    {
      if fields.Some? && DeactivatedAtField !in fields.value { return; }
      if instance.deactivatedAt.Some? {
        sessions := map t | t in sessions && sessions[t].user != Some(u) :: sessions[t];
      }
    }

    method Save(u: nat, instance: User, fields: Option<set<Field>>)
      modifies this`users, this`sessions
      ensures View() == SaveUser(old(View()), u, instance, fields)
    {
      var row := instance;
      if u in users && fields.Some? {
        row := users[u];
        if RoleField in fields.value { row := row.(role := instance.role); }
        if DeactivatedAtField in fields.value { row := row.(deactivatedAt := instance.deactivatedAt); }
      }
      users := users[u := row];
      SyncRoleToSessions(u, instance, fields);
      RevokeSessions(u, instance, fields);
    }

    /** Inserts a session after `clean`. */
    method InsertSession(token: nat, x: Session) returns (ok: bool)
      modifies this`sessions
      ensures ok == Clean(old(View()), x)
      ensures sessions == if ok then old(sessions)[token := x] else old(sessions)
    {
      if x.user.Some? {
        var u := x.user.value;
        ok := u in users && x.identity == users[u].identity && x.workspace == Some(users[u].workspace)
          && x.role == Some(users[u].role);
      } else {
        ok := x.workspace.None? && x.role.None?;
      }
      if ok { sessions := sessions[token := x]; }
    }

    method NewUser(email: string, workspace: nat, role: Role, u: nat, newIdentity: nat,
        now: int) returns (error: Option<Error>)
      requires u !in users
      modifies this`identities, this`users, this`sessions
      ensures match CreateUser(old(View()), email, workspace, role, u, newIdentity, now)
              case Ok(s) => error.None? && View() == s
              case Err(e) => error == Some(e)
      ensures error.None? ==> u in users
    {
      if email == "" { return Some(ValueError); }
      var normalized := Normalized(email);
      var found := First(set i | i in identities && identities[i] == normalized);
      assert (set i | i in identities && identities[i] == normalized) == IdentitiesWith(View(), normalized);
      var identity := newIdentity;
      if found.Some? {
        identity := found.value;
      } else {
        identities := identities[newIdentity := normalized];
      }
      assert (View(), identity) == GetOrCreateIdentity(old(View()), normalized, newIdentity);
      if exists v :: v in users && users[v].identity == identity && users[v].workspace == workspace {
        return Some(IntegrityError);
      }
      Save(u, User(identity, workspace, role, now, None), None);
      return None;
    }

    /** The body of the transaction of `create_workspace` and `join_workspace`; the callers undo it after an error. */
    method AddMember(identity: nat, w: nat, role: Role, u: nat, newIdentity: nat, newToken: nat,
        now: int) returns (error: Option<Error>)
      requires identity in identities && u !in users
      modifies this`identities, this`users, this`sessions
      ensures error == Admit(old(View()), old(View()), identity, w, role, u, newIdentity, newToken, now).error
      ensures error.None? ==>
        View() == Admit(old(View()), old(View()), identity, w, role, u, newIdentity, newToken, now).state
    {
      error := NewUser(identities[identity], w, role, u, newIdentity, now);
      if error.Some? { return; }
      var ok := InsertSession(newToken,
        Session(identity, Some(u), Some(users[u].workspace), Some(users[u].role), now + MONTH));
      if !ok { error := Some(ValidationError); }
    }

    method SignUp(email: string, newIdentity: nat, newToken: nat, now: int) returns (error: Option<Error>)
      modifies this`identities, this`sessions
      ensures Outcome(View(), error) == MembershipModel.SignUp(old(View()), email, newIdentity, newToken, now)
    {
      var matching := set i | i in identities && identities[i] == email;
      assert matching == IdentitiesWith(View(), email);
      if matching != {} { return Some(EmailTaken); }
      identities := identities[newIdentity := email];
      var ok := InsertSession(newToken, Session(newIdentity, None, None, None, now + MONTH));
      error := if ok then None else Some(ValidationError);
    }

    /** After the credentials, or the login code, were accepted. */
    method Login(email: string, newIdentity: nat, newToken: nat, now: int) returns (error: Option<Error>)
      modifies this`identities, this`sessions
      ensures Outcome(View(), error) == MembershipModel.Login(old(View()), email, newIdentity, newToken, now)
    {
      var matching := set i | i in identities && identities[i] == email;
      assert matching == IdentitiesWith(View(), email);
      var found := First(matching);
      var identity := newIdentity;
      if found.Some? {
        identity := found.value;
      } else {
        identities := identities[newIdentity := email];
      }
      assert (View(), identity) == GetOrCreateIdentity(old(View()), email, newIdentity);
      var active := set u | u in users && users[u].identity == identity && users[u].deactivatedAt.None?;
      assert active == ActiveUsersOf(View(), identity);
      var user := MostRecent(active, map u | u in users :: -users[u].joinedAt);
      var x := Session(identity, None, None, None, now + MONTH);
      if user.Some? {
        var u := user.value;
        x := Session(identity, Some(u), Some(users[u].workspace), Some(users[u].role), now + MONTH);
      }
      var ok := InsertSession(newToken, x);
      error := if ok then None else Some(ValidationError);
    }

    method Logout(token: nat, now: int) returns (error: Option<Error>)
      modifies this`sessions
      ensures Outcome(View(), error) == MembershipModel.Logout(old(View()), token, now)
    {
      var session := AuthenticateMember(token, now);
      if session.None? { return Some(InvalidToken); }
      sessions := sessions - {token};
      return None;
    }

    method CreateWorkspace(token: nat, w: nat, u: nat, newIdentity: nat, newToken: nat,
        now: int) returns (error: Option<Error>)
      requires u !in users
      modifies this
      ensures Outcome(View(), error)
        == MembershipModel.CreateWorkspace(old(View()), token, w, u, newIdentity, newToken, now)
      ensures MR.Inv(old(View())) && w !in old(workspaces) && newIdentity !in old(identities) ==>
        if error.None? then MR.Inv(View()) && ActiveAdmins(View(), w) == {u} else View() == old(View())
    {
      CreatedAlone(View(), token, w, u, newIdentity, newToken, now);
      var session := Authenticate(token, now);
      if session.None? { return Some(InvalidToken); }
      var identities0, workspaces0, users0, sessions0 := identities, workspaces, users, sessions;
      workspaces := workspaces + {w};
      error := AddMember(session.value.identity, w, Admin, u, newIdentity, newToken, now);
      if error.Some? {
        identities, workspaces, users, sessions := identities0, workspaces0, users0, sessions0;
      }
    }

    method JoinWorkspace(token: nat, w: nat, admitted: bool, u: nat, newIdentity: nat, newToken: nat,
        now: int) returns (error: Option<Error>)
      requires u !in users
      modifies this
      ensures Outcome(View(), error)
        == MembershipModel.Join(old(View()), token, w, admitted, u, newIdentity, newToken, now)
      ensures MR.Inv(old(View())) && newIdentity !in old(identities) ==>
        if error.None? then MR.Inv(View()) && u in users && u in ActiveUsersIn(View(), users[u].identity, w)
        else View() == old(View())
    {
      JoinedActive(View(), token, w, admitted, u, newIdentity, newToken, now);
      var session := Authenticate(token, now);
      if session.None? { return Some(InvalidToken); }
      if w !in workspaces { return Some(WorkspaceNotFound); }
      var identity := session.value.identity;
      var existing := set v | v in users && users[v].identity == identity && users[v].workspace == w
        && users[v].deactivatedAt.None?;
      assert existing == ActiveUsersIn(View(), identity, w);
      if existing != {} { return Some(AlreadyMember); }
      if !admitted { return Some(NotAdmitted); }
      var identities0, users0, sessions0 := identities, users, sessions;
      error := AddMember(identity, w, Member, u, newIdentity, newToken, now);
      if error.Some? {
        identities, users, sessions := identities0, users0, sessions0;
      }
    }

    method LoginWorkspace(token: nat, w: nat, newToken: nat, now: int) returns (error: Option<Error>)
      modifies this`sessions
      ensures Outcome(View(), error) == MembershipModel.LoginWorkspace(old(View()), token, w, newToken, now)
    {
      var session := Authenticate(token, now);
      if session.None? { return Some(InvalidToken); }
      var identity := session.value.identity;
      var matching := set v | v in users && users[v].identity == identity && users[v].workspace == w
        && users[v].deactivatedAt.None?;
      assert matching == ActiveUsersIn(View(), identity, w);
      var found := First(matching);
      if found.None? { return Some(WorkspaceNotFound); }
      var u := found.value;
      var ok := InsertSession(newToken,
        Session(identity, Some(u), Some(users[u].workspace), Some(users[u].role), now + MONTH));
      error := if ok then None else Some(ValidationError);
    }

    method Authenticate(token: nat, now: int) returns (session: Option<Session>)
      ensures session == AuthIdentity(View(), token, now)
    {
      if token !in sessions { return None; }
      var x := sessions[token];
      if x.expiry <= now || x.identity !in identities { return None; }
      return Some(x);
    }

    method AuthenticateMember(token: nat, now: int) returns (session: Option<Session>)
      ensures session == AuthWorkspace(View(), token, now)
    {
      if token !in sessions { return None; }
      var x := sessions[token];
      if x.expiry <= now || x.user.None? || x.workspace.None? { return None; }
      if x.user.value !in users || users[x.user.value].deactivatedAt.Some? { return None; }
      return Some(x);
    }

    method UpdateUserRole(token: nat, target: nat, role: Option<Role>, now: int) returns (error: Option<Error>)
      modifies this`users, this`sessions
      ensures Outcome(View(), error) == MembershipModel.UpdateRole(old(View()), token, target, role, now)
      ensures MR.Inv(old(View())) ==>
        MR.Inv(View()) && (error.None? <==> role.Some? && MR.MayChange(old(View()), token, target, now))
      ensures MR.Inv(old(View())) && error.None? ==>
        forall t | t in sessions && sessions[t].user == Some(target) :: sessions[t].role == role
    {
      if MR.Inv(View()) { MR.UpdateRoleOutcome(View(), token, target, role, now); }
      var session := AuthenticateMember(token, now);
      if session.None? { return Some(InvalidToken); }
      var x := session.value;
      if x.role != Some(Admin) { return Some(Forbidden); }
      if x.user.value == target { return Some(OwnRole); }
      if role.None? { return Some(InvalidRole); }
      if target !in users || users[target].workspace != x.workspace.value || users[target].deactivatedAt.Some? {
        return Some(UserNotFound);
      }
      var user := users[target].(role := role.value);
      Save(target, user, Some({RoleField}));
      return None;
    }

    method DeactivateUser(token: nat, target: nat, now: int) returns (error: Option<Error>)
      modifies this`users, this`sessions
      ensures Outcome(View(), error) == MembershipModel.Deactivate(old(View()), token, target, now)
      ensures MR.Inv(old(View())) ==> MR.Inv(View()) && (error.None? <==> MR.MayChange(old(View()), token, target, now))
      ensures MR.Inv(old(View())) && error.None? ==> forall t | t in sessions :: sessions[t].user != Some(target)
    {
      if MR.Inv(View()) { MR.DeactivateOutcome(View(), token, target, now); }
      var session := AuthenticateMember(token, now);
      if session.None? { return Some(InvalidToken); }
      var x := session.value;
      if x.role != Some(Admin) { return Some(Forbidden); }
      if target !in users || users[target].workspace != x.workspace.value || users[target].deactivatedAt.Some? {
        return Some(UserNotFound);
      }
      if x.user.value == target { return Some(OwnDeactivation); }
      var user := users[target].(deactivatedAt := Some(now));
      Save(target, user, Some({DeactivatedAtField}));
      return None;
    }
  }
}
