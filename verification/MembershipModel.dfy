/** Identities, workspaces, their users and the sessions that copy role and workspace from the user. */
module MembershipModel {
  import opened Common
  import Text

  datatype Role = Admin | Member

  datatype User = User(identity: nat, workspace: nat, role: Role, joinedAt: int, deactivatedAt: Option<int>)

  /** Role and workspace are copies of the user's; a session without a user only names an identity. */
  datatype Session = Session(identity: nat, user: Option<nat>, workspace: Option<nat>, role: Option<Role>, expiry: int)

  datatype State = State(
    identities: map<nat, string>,
    workspaces: set<nat>,
    users: map<nat, User>,
    sessions: map<nat, Session>)

  datatype Error =
    | InvalidToken | Forbidden | OwnRole | InvalidRole | UserNotFound | OwnDeactivation
    | WorkspaceNotFound | AlreadyMember | NotAdmitted | EmailTaken | ValueError | IntegrityError | ValidationError

  datatype Outcome = Outcome(state: State, error: Option<Error>)

  const MONTH := 30 * 24 * 3600

  const EMPTY := State(map[], {}, map[], map[])

  // ---------- Saving a user ----------

  datatype Field = RoleField | DeactivatedAtField

  function Written(row: User, instance: User, fields: Option<set<Field>>): User {
    match fields
    case None => instance
    case Some(f) =>
      var r := if RoleField in f then row.(role := instance.role) else row;
      if DeactivatedAtField in f then r.(deactivatedAt := instance.deactivatedAt) else r
  }

  function WithRole(sessions: map<nat, Session>, u: nat, role: Role): map<nat, Session> {
    map t | t in sessions :: if sessions[t].user == Some(u) then sessions[t].(role := Some(role)) else sessions[t]
  }

  function Without(sessions: map<nat, Session>, u: nat): map<nat, Session> {
    map t | t in sessions && sessions[t].user != Some(u) :: sessions[t]
  }

  predicate Touches(fields: Option<set<Field>>, f: Field) {
    fields.None? || f in fields.value
  }

  /** `user.save(update_fields=...)` and the two receivers of the save signal. */
  function SaveUser(s: State, u: nat, instance: User, fields: Option<set<Field>>): State {
    var row := if u in s.users then Written(s.users[u], instance, fields) else instance;
    var synced := if Touches(fields, RoleField) then WithRole(s.sessions, u, instance.role) else s.sessions;
    var gone := Touches(fields, DeactivatedAtField) && instance.deactivatedAt.Some?;
    var kept := if gone then Without(synced, u) else synced;
    s.(users := s.users[u := row], sessions := kept)
  }

  // ---------- Queries ----------

  function IdentitiesWith(s: State, email: string): set<nat> {
    set i | i in s.identities && s.identities[i] == email
  }

  function ActiveUsersOf(s: State, identity: nat): set<nat> {
    set u | u in s.users && s.users[u].identity == identity && s.users[u].deactivatedAt.None?
  }

  function ActiveUsersIn(s: State, identity: nat, workspace: nat): set<nat> {
    set u | u in ActiveUsersOf(s, identity) && s.users[u].workspace == workspace
  }

  function ActiveAdmins(s: State, workspace: nat): set<nat> {
    set u | u in s.users && s.users[u].workspace == workspace && s.users[u].role == Admin
      && s.users[u].deactivatedAt.None?
  }

  /** `KeyLifecycleService.is_solo_admin`. */
  predicate IsSoloAdmin(s: State, workspace: nat, u: nat)
    requires u in s.users
  {
    |ActiveAdmins(s, workspace)| == 1 && s.users[u].role == Admin
  }

  function AuthIdentity(s: State, token: nat, now: int): Option<Session> {
    if token in s.sessions && s.sessions[token].expiry > now && s.sessions[token].identity in s.identities
    then Some(s.sessions[token]) else None
  }

  predicate ForActiveUser(s: State, x: Session) {
    x.user.Some? && x.workspace.Some? && x.user.value in s.users && s.users[x.user.value].deactivatedAt.None?
  }

  function AuthWorkspace(s: State, token: nat, now: int): (r: Option<Session>)
    ensures r.Some? ==> ForActiveUser(s, r.value)
  {
    if token in s.sessions && s.sessions[token].expiry > now && ForActiveUser(s, s.sessions[token])
    then Some(s.sessions[token]) else None
  }

  // ---------- Creating rows ----------

  /** `Session.clean`, which runs on every insert. */
  predicate Clean(s: State, x: Session) {
    match x.user
    case Some(u) =>
      u in s.users && x.identity == s.users[u].identity && x.workspace == Some(s.users[u].workspace)
        && x.role == Some(s.users[u].role)
    case None => x.workspace.None? && x.role.None?
  }

  function NewSession(s: State, identity: nat, user: Option<nat>, now: int): Session {
    if user.Some? && user.value in s.users
    then Session(identity, user, Some(s.users[user.value].workspace), Some(s.users[user.value].role), now + MONTH)
    else Session(identity, None, None, None, now + MONTH)
  }

  function OpenSession(s: State, token: nat, identity: nat, user: Option<nat>, now: int): Result<State, Error> {
    var x := NewSession(s, identity, user, now);
    if Clean(s, x) then Ok(s.(sessions := s.sessions[token := x])) else Err(ValidationError)
  }

  /** `normalize_email`: an address is stripped and the part behind its last '@' put in lower case. */
  function Normalized(email: string): string {
    var stripped := Text.Strip(email);
    var n := Text.UpToLast(stripped, '@');
    if n == 0 then email else stripped[..n] + Text.Lower(stripped[n..])
  }

  /** Not empty, and either without an '@' or without white space around it and capitals in its domain. */
  predicate Usable(email: string) {
    email != "" && ('@' in email ==> !Text.Padded(email) && Text.AllLower(email[Text.UpToLast(email, '@')..]))
  }

  function GetOrCreateIdentity(s: State, email: string, newIdentity: nat): (State, nat) {
    match First(IdentitiesWith(s, email))
    case Some(i) => (s, i)
    case None => (s.(identities := s.identities[newIdentity := email]), newIdentity)
  }

  predicate PairTaken(s: State, identity: nat, workspace: nat) {
    exists u :: u in s.users && s.users[u].identity == identity && s.users[u].workspace == workspace
  }

  /** The user is made for the identity with the normalized address, which need not be the caller's. */
  function CreateUser(s: State, email: string, workspace: nat, role: Role, u: nat, newIdentity: nat,
      now: int): Result<State, Error> {
    if email == "" then Err(ValueError) else
    var (s1, identity) := GetOrCreateIdentity(s, Normalized(email), newIdentity);
    if PairTaken(s1, identity, workspace) then Err(IntegrityError)
    else Ok(SaveUser(s1, u, User(identity, workspace, role, now, None), None))
  }

  /** User and session in one transaction: an error undoes both. */
  function Admit(s: State, s0: State, identity: nat, workspace: nat, role: Role, u: nat, newIdentity: nat,
      newToken: nat, now: int): Outcome
    requires identity in s.identities
  {
    match CreateUser(s, s.identities[identity], workspace, role, u, newIdentity, now)
    case Err(e) => Outcome(s0, Some(e))
    case Ok(s1) =>
      match OpenSession(s1, newToken, identity, Some(u), now)
      case Err(e) => Outcome(s0, Some(e))
      case Ok(s2) => Outcome(s2, None)
  }

  // ---------- Endpoints ----------

  function SignUp(s: State, email: string, newIdentity: nat, newToken: nat, now: int): Outcome {
    if IdentitiesWith(s, email) != {} then Outcome(s, Some(EmailTaken)) else
    var s1 := s.(identities := s.identities[newIdentity := email]);
    match OpenSession(s1, newToken, newIdentity, None, now)
    case Err(e) => Outcome(s1, Some(e))
    case Ok(s2) => Outcome(s2, None)
  }

  /** The active user that joined first. */
  function FirstJoined(s: State, identity: nat): Option<nat> {
    MostRecent(ActiveUsersOf(s, identity), map u | u in s.users :: -s.users[u].joinedAt)
  }

  /** A login whose credentials were accepted: a workspace session if the identity has an active user. */
  function Login(s: State, email: string, newIdentity: nat, newToken: nat, now: int): Outcome {
    var (s1, identity) := GetOrCreateIdentity(s, email, newIdentity);
    match OpenSession(s1, newToken, identity, FirstJoined(s1, identity), now)
    case Err(e) => Outcome(s1, Some(e))
    case Ok(s2) => Outcome(s2, None)
  }

  function CreateWorkspace(s: State, token: nat, w: nat, u: nat, newIdentity: nat, newToken: nat, now: int): Outcome {
    match AuthIdentity(s, token, now)
    case None => Outcome(s, Some(InvalidToken))
    case Some(x) => Admit(s.(workspaces := s.workspaces + {w}), s, x.identity, w, Admin, u, newIdentity, newToken, now)
  }

  function LoginWorkspace(s: State, token: nat, w: nat, newToken: nat, now: int): Outcome {
    match AuthIdentity(s, token, now)
    case None => Outcome(s, Some(InvalidToken))
    case Some(x) =>
      match First(ActiveUsersIn(s, x.identity, w))
      case None => Outcome(s, Some(WorkspaceNotFound))
      case Some(u) =>
        match OpenSession(s, newToken, x.identity, Some(u), now)
        case Err(e) => Outcome(s, Some(e))
        case Ok(s1) => Outcome(s1, None)
  }

  /** `admitted`: the address is in an allowed domain, or the invitation is valid. */
  function Join(s: State, token: nat, w: nat, admitted: bool, u: nat, newIdentity: nat, newToken: nat,
      now: int): Outcome {
    match AuthIdentity(s, token, now)
    case None => Outcome(s, Some(InvalidToken))
    case Some(x) =>
      if w !in s.workspaces then Outcome(s, Some(WorkspaceNotFound))
      else if ActiveUsersIn(s, x.identity, w) != {} then Outcome(s, Some(AlreadyMember))
      else if !admitted then Outcome(s, Some(NotAdmitted))
      else Admit(s, s, x.identity, w, Member, u, newIdentity, newToken, now)
  }

  /** `role` is `None` for a value that names no role. */
  function UpdateRole(s: State, token: nat, target: nat, role: Option<Role>, now: int): Outcome {
    match AuthWorkspace(s, token, now)
    case None => Outcome(s, Some(InvalidToken))
    case Some(x) =>
      if x.role != Some(Admin) then Outcome(s, Some(Forbidden))
      else if x.user == Some(target) then Outcome(s, Some(OwnRole))
      else if role.None? then Outcome(s, Some(InvalidRole))
      else if !IsActiveIn(s, target, x.workspace.value) then Outcome(s, Some(UserNotFound))
      else Outcome(SaveUser(s, target, s.users[target].(role := role.value), Some({RoleField})), None)
  }

  predicate IsActiveIn(s: State, u: nat, workspace: nat) {
    u in s.users && s.users[u].workspace == workspace && s.users[u].deactivatedAt.None?
  }

  function Deactivate(s: State, token: nat, target: nat, now: int): Outcome {
    match AuthWorkspace(s, token, now)
    case None => Outcome(s, Some(InvalidToken))
    case Some(x) =>
      if x.role != Some(Admin) then Outcome(s, Some(Forbidden))
      else if !IsActiveIn(s, target, x.workspace.value) then Outcome(s, Some(UserNotFound))
      else if x.user == Some(target) then Outcome(s, Some(OwnDeactivation))
      else Outcome(SaveUser(s, target, s.users[target].(deactivatedAt := Some(now)), Some({DeactivatedAtField})), None)
  }

  function Logout(s: State, token: nat, now: int): Outcome {
    match AuthWorkspace(s, token, now)
    case None => Outcome(s, Some(InvalidToken))
    case Some(_) => Outcome(s.(sessions := s.sessions - {token}), None)
  }

  // ---------- Runs ----------

  datatype Step =
    | SigningUp(email: string, newIdentity: nat, newToken: nat, now: int)
    | LoggingIn(email: string, newIdentity: nat, newToken: nat, now: int)
    | Creating(token: nat, w: nat, u: nat, newIdentity: nat, newToken: nat, now: int)
    | Entering(token: nat, w: nat, newToken: nat, now: int)
    | Joining(token: nat, w: nat, admitted: bool, u: nat, newIdentity: nat, newToken: nat, now: int)
    | ChangingRole(token: nat, target: nat, role: Option<Role>, now: int)
    | Deactivating(token: nat, target: nat, now: int)
    | LoggingOut(token: nat, now: int)

  function Apply(s: State, e: Step): Outcome {
    match e
    case SigningUp(email, i, t, now) => SignUp(s, email, i, t, now)
    case LoggingIn(email, i, t, now) => Login(s, email, i, t, now)
    case Creating(token, w, u, i, t, now) => CreateWorkspace(s, token, w, u, i, t, now)
    case Entering(token, w, t, now) => LoginWorkspace(s, token, w, t, now)
    case Joining(token, w, admitted, u, i, t, now) => Join(s, token, w, admitted, u, i, t, now)
    case ChangingRole(token, target, role, now) => UpdateRole(s, token, target, role, now)
    case Deactivating(token, target, now) => Deactivate(s, token, target, now)
    case LoggingOut(token, now) => Logout(s, token, now)
  }

  function Next(s: State, e: Step): State {
    Apply(s, e).state
  }

  /** New rows get unused keys. */
  predicate Possible(s: State, e: Step) {
    match e
    case SigningUp(_, i, t, _) => i !in s.identities && t !in s.sessions
    case LoggingIn(_, i, t, _) => i !in s.identities && t !in s.sessions
    case Creating(_, w, u, i, t, _) => w !in s.workspaces && u !in s.users && i !in s.identities && t !in s.sessions
    case Entering(_, _, t, _) => t !in s.sessions
    case Joining(_, _, _, u, i, t, _) => u !in s.users && i !in s.identities && t !in s.sessions
    case _ => true
  }

  function Run(s: State, run: seq<Step>): State
    decreases |run|
  {
    if run == [] then s else Run(Next(s, run[0]), run[1..])
  }

  predicate PossibleRun(s: State, run: seq<Step>)
    decreases |run|
  {
    run == [] || (Possible(s, run[0]) && PossibleRun(Next(s, run[0]), run[1..]))
  }
}
