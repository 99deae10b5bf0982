/** Access records of one workspace: the approval machine, what it allows, and what is reported. */
module AccessModel {
  import opened Common

  datatype Holder = ForUser(user: nat) | ForGroup(group: nat)

  datatype Mode = AdminSet | Requested

  datatype Access = Access(
    account: nat,
    holder: Holder,
    mode: Mode,
    requestedAt: Option<int>,
    grantedAt: Option<int>,
    grantedUntil: Option<int>,
    deniedAt: Option<int>,
    revokedAt: Option<int>)

  datatype Error =
    | OneOfUserOrGroup | AlreadyGranted
    | AlreadyHaveAccess | AlreadyPending | BadTimeout
    | NotFound | AlreadyApproved | AlreadyDenied | WasRevoked | NotARequest | AlreadyRevoked

  type Table = map<nat, Access>

  datatype Outcome = Outcome(table: Table, error: Option<Error>)

  const HOUR := 3600

  // ---------- Endpoints ----------

  function Unrevoked(t: Table, account: nat, holder: Holder): set<nat> {
    set id | id in t && t[id].account == account && t[id].holder == holder && t[id].revokedAt.None?
  }

  /** Neither revoked nor denied. */
  function Standing(t: Table, account: nat, holder: Holder): set<nat> {
    set id | id in t && t[id].account == account && t[id].holder == holder && t[id].revokedAt.None?
      && t[id].deniedAt.None?
  }

  /** A denied but unrevoked record counts as an existing grant here. */
  function Grant(t: Table, id: nat, account: nat, user: Option<nat>, group: Option<nat>, until: Option<int>,
      now: int): Outcome {
    if user.Some? == group.Some? then Outcome(t, Some(OneOfUserOrGroup)) else
    var holder := if user.Some? then ForUser(user.value) else ForGroup(group.value);
    if Unrevoked(t, account, holder) != {} then Outcome(t, Some(AlreadyGranted))
    else Outcome(t[id := Access(account, holder, AdminSet, None, Some(now), until, None, None)], None)
  }

  /** The clock is read once for the expiry and again, no earlier, for the request time. */
  function Request(t: Table, id: nat, account: nat, user: nat, timeout: Option<int>, now: int, later: int): Outcome {
    match First(Standing(t, account, ForUser(user)))
    case Some(e) => Outcome(t, Some(if t[e].grantedAt.Some? then AlreadyHaveAccess else AlreadyPending))
    case None =>
      var hours := if timeout.Some? then timeout.value else 12;
      if hours <= 0 || hours > 168 then Outcome(t, Some(BadTimeout))
      else
        var until := now + hours * HOUR;
        Outcome(t[id := Access(account, ForUser(user), Requested, Some(later), None, Some(until), None, None)], None)
  }

  function PendingError(t: Table, id: nat): Option<Error> {
    if id !in t then Some(NotFound)
    else if t[id].grantedAt.Some? then Some(AlreadyApproved)
    else if t[id].deniedAt.Some? then Some(AlreadyDenied)
    else if t[id].revokedAt.Some? then Some(WasRevoked)
    else if t[id].requestedAt.None? then Some(NotARequest)
    else None
  }

  function Approve(t: Table, id: nat, now: int): Outcome {
    var e := PendingError(t, id);
    if e.Some? then Outcome(t, e) else Outcome(t[id := t[id].(grantedAt := Some(now))], None)
  }

  function Deny(t: Table, id: nat, now: int): Outcome {
    var e := PendingError(t, id);
    if e.Some? then Outcome(t, e) else Outcome(t[id := t[id].(deniedAt := Some(now))], None)
  }

  function Revoke(t: Table, id: nat, now: int): Outcome {
    if id !in t then Outcome(t, Some(NotFound))
    else if t[id].revokedAt.Some? then Outcome(t, Some(AlreadyRevoked))
    else Outcome(t[id := t[id].(revokedAt := Some(now))], None)
  }

  // ---------- Runs ----------

  datatype Step =
    | Granting(id: nat, account: nat, user: Option<nat>, group: Option<nat>, until: Option<int>, now: int)
    | Requesting(id: nat, account: nat, byUser: nat, timeout: Option<int>, now: int, later: int)
    | NewAccount(id: nat, account: nat, creator: nat, now: int)
    | Approving(id: nat, now: int)
    | Denying(id: nat, now: int)
    | Revoking(id: nat, now: int)

  datatype World = World(table: Table, clock: int)

  function Apply(t: Table, s: Step): Outcome {
    match s
    case Granting(id, account, user, group, until, now) => Grant(t, id, account, user, group, until, now)
    case Requesting(id, account, user, timeout, now, later) => Request(t, id, account, user, timeout, now, later)
    case NewAccount(id, account, creator, now) =>
      Outcome(t[id := Access(account, ForUser(creator), AdminSet, None, Some(now), None, None, None)], None)
    case Approving(id, now) => Approve(t, id, now)
    case Denying(id, now) => Deny(t, id, now)
    case Revoking(id, now) => Revoke(t, id, now)
  }

  function Next(w: World, s: Step): World {
    World(Apply(w.table, s).table, if s.Requesting? then s.later else s.now)
  }

  /** New rows get unused keys, a new account has no records yet, and time does not run backwards. */
  predicate Possible(w: World, s: Step) {
    && w.clock <= s.now
    && (s.Requesting? ==> s.now <= s.later)
    && (s.Granting? || s.Requesting? || s.NewAccount? ==> s.id !in w.table)
    && (s.NewAccount? ==> forall id | id in w.table :: w.table[id].account != s.account)
  }

  function Run(w: World, run: seq<Step>): World
    decreases |run|
  {
    if run == [] then w else Run(Next(w, run[0]), run[1..])
  }

  predicate PossibleRun(w: World, run: seq<Step>)
    decreases |run|
  {
    run == [] || (Possible(w, run[0]) && PossibleRun(Next(w, run[0]), run[1..]))
  }

  // ---------- What every reachable record satisfies ----------

  predicate RecordOk(r: Access, clock: int) {
    && !(r.grantedAt.Some? && r.deniedAt.Some?)
    && (r.mode == Requested <==> r.requestedAt.Some?)
    && (r.mode == AdminSet ==> r.grantedAt.Some?)
    && (r.mode == Requested ==>
      r.holder.ForUser? && r.grantedUntil.Some? && r.grantedUntil.value <= r.requestedAt.value + 168 * HOUR)
    && (r.grantedAt.Some? ==>
      r.grantedAt.value <= clock && (r.requestedAt.Some? ==> r.requestedAt.value <= r.grantedAt.value))
    && (r.requestedAt.Some? ==> r.requestedAt.value <= clock)
  }

  /** At most one standing direct record per user and account, and one unrevoked record per group and account. */
  ghost predicate Unique(t: Table) {
    forall i, j | i in t && j in t && t[i].account == t[j].account && t[i].holder == t[j].holder
      && t[i].revokedAt.None? && t[j].revokedAt.None?
      && (t[i].holder.ForGroup? || (t[i].deniedAt.None? && t[j].deniedAt.None?)) :: i == j
  }

  ghost predicate Inv(w: World) {
    && (forall id | id in w.table :: RecordOk(w.table[id], w.clock))
    && Unique(w.table)
  }

  /** What may happen to a row in one step: nothing, or one stamp, never on a revoked row. */
  predicate Evolves(r: Access, r': Access, now: int) {
    || r' == r
    || (r.revokedAt.None? && r' == r.(revokedAt := Some(now)))
    || (r.revokedAt.None? && r.grantedAt.None? && r.deniedAt.None? && r.mode == Requested
        && (r' == r.(grantedAt := Some(now)) || r' == r.(deniedAt := Some(now))))
  }

  lemma RowsEvolve(w: World, s: Step, id: nat)
    requires Inv(w) && Possible(w, s) && id in w.table
    ensures id in Next(w, s).table && Evolves(w.table[id], Next(w, s).table[id], s.now)
  {
    assert RecordOk(w.table[id], w.clock);
  }

  lemma StepKeepsRecords(w: World, s: Step)
    requires Inv(w) && Possible(w, s)
    ensures var w1 := Next(w, s); forall id | id in w1.table :: RecordOk(w1.table[id], w1.clock)
  {
    var w1 := Next(w, s);
    forall id | id in w1.table ensures RecordOk(w1.table[id], w1.clock) {
      if id in w.table {
        RowsEvolve(w, s, id);
        assert RecordOk(w.table[id], w.clock);
      }
    }
  }

  /** A row that is added clears the way first. */
  lemma AddedIsAlone(w: World, s: Step, j: nat)
    requires Inv(w) && Possible(w, s) && (s.Granting? || s.Requesting? || s.NewAccount?)
    requires s.id in Next(w, s).table && j in w.table
    requires var r := Next(w, s).table[s.id]; w.table[j].account == r.account && w.table[j].holder == r.holder
    ensures w.table[j].revokedAt.Some? || (w.table[j].deniedAt.Some? && w.table[j].holder.ForUser?)
  {
    var r := Next(w, s).table[s.id];
    assert w.table[j].revokedAt.None? ==> j in Unrevoked(w.table, r.account, r.holder);
    assert w.table[j].revokedAt.None? && w.table[j].deniedAt.None? ==> j in Standing(w.table, r.account, r.holder);
  }

  lemma StepKeepsUnique(w: World, s: Step)
    requires Inv(w) && Possible(w, s)
    ensures Unique(Next(w, s).table)
  {
    var t := Next(w, s).table;
    forall i, j | i in t && j in t && t[i].account == t[j].account && t[i].holder == t[j].holder
      && t[i].revokedAt.None? && t[j].revokedAt.None?
      && (t[i].holder.ForGroup? || (t[i].deniedAt.None? && t[j].deniedAt.None?))
      ensures i == j
    {
      if i in w.table { RowsEvolve(w, s, i); } else if j in w.table { AddedIsAlone(w, s, j); }
      if j in w.table { RowsEvolve(w, s, j); } else if i in w.table { AddedIsAlone(w, s, i); }
    }
  }

  lemma StepKeepsInv(w: World, s: Step)
    requires Inv(w) && Possible(w, s)
    ensures Inv(Next(w, s))
  {
    StepKeepsRecords(w, s);
    StepKeepsUnique(w, s);
  }

  /** In every reachable state no record is both granted and denied, and records are unique. */
  lemma {:induction false} RunKeepsInv(w: World, run: seq<Step>)
    requires Inv(w) && PossibleRun(w, run)
    ensures Inv(Run(w, run))
    decreases |run|
  {
    if run != [] {
      StepKeepsInv(w, run[0]);
      RunKeepsInv(Next(w, run[0]), run[1..]);
    }
  }

  /** Revoked is terminal: the whole row stays as it is. Denied and granted rows can only be revoked. */
  lemma {:induction false} StampsAreFinal(w: World, run: seq<Step>, id: nat)
    requires Inv(w) && PossibleRun(w, run) && id in w.table
    ensures id in Run(w, run).table
    ensures w.table[id].revokedAt.Some? ==> Run(w, run).table[id] == w.table[id]
    ensures w.table[id].grantedAt.Some? || w.table[id].deniedAt.Some? ==>
      Run(w, run).table[id].(revokedAt := None) == w.table[id].(revokedAt := None)
    decreases |run|
  {
    if run != [] {
      RowsEvolve(w, run[0], id);
      StepKeepsInv(w, run[0]);
      StampsAreFinal(Next(w, run[0]), run[1..], id);
    }
  }

  // ---------- Who has access, when ----------

  /** The filter of the server's queries. */
  predicate ServerActive(r: Access, now: int) {
    r.revokedAt.None? && r.grantedAt.Some? && (r.grantedUntil.None? || r.grantedUntil.value > now)
  }

  predicate ClientActive(r: Access, now: int) {
    && !(r.revokedAt.Some? || r.deniedAt.Some?)
    && r.grantedAt.Some?
    && !(r.grantedUntil.Some? && r.grantedUntil.value < now)
  }

  predicate ClientPending(r: Access) {
    r.requestedAt.Some? && r.grantedAt.None? && r.deniedAt.None? && r.revokedAt.None?
  }

  datatype Status = StatusRevoked | StatusDenied | StatusExpired | StatusApproved | StatusPending

  function StatusOf(r: Access, now: int): Status {
    if r.revokedAt.Some? then StatusRevoked
    else if r.deniedAt.Some? then StatusDenied
    else if r.grantedAt.Some? then
      if r.grantedUntil.Some? && r.grantedUntil.value < now then StatusExpired else StatusApproved
    else StatusPending
  }

  /** The client's test agrees with the server's except at the very instant of expiry. */
  lemma ClientAgreesWithServer(r: Access, clock: int, now: int)
    requires RecordOk(r, clock)
    ensures ClientActive(r, now) <==>
      ServerActive(r, now) || (r.revokedAt.None? && r.grantedAt.Some? && r.grantedUntil == Some(now))
  {
  }

  /** The reported status is the state of the machine: which stamp came last, and for a grant which side of the
      expiry. */
  lemma StatusIsTheState(r: Access, clock: int, now: int)
    requires RecordOk(r, clock) && r.mode == Requested
    ensures StatusOf(r, now) == StatusPending <==> ClientPending(r)
    ensures StatusOf(r, now) == StatusApproved <==> ClientActive(r, now)
    ensures StatusOf(r, now) == StatusDenied <==> r.deniedAt.Some? && r.grantedAt.None? && r.revokedAt.None?
    ensures StatusOf(r, now) == StatusExpired <==>
      r.grantedAt.Some? && r.deniedAt.None? && r.revokedAt.None? && r.grantedUntil.value < now
    ensures StatusOf(r, now) == StatusRevoked <==> r.revokedAt.Some?
    ensures ServerActive(r, now) ==> StatusOf(r, now) == StatusApproved
  {
  }

  /** `list_pending_requests`. */
  function PendingRequests(t: Table): set<nat> {
    set id | id in t && t[id].mode == Requested && t[id].requestedAt.Some? && t[id].grantedAt.None?
      && t[id].deniedAt.None? && t[id].revokedAt.None?
  }

  /** The administrator's queue, the client's test and what approval and denial accept are one and the same. A refusal
      names the first stamp that stands in the way: grant, denial, revocation. */
  lemma PendingIsDecidable(t: Table, clock: int, id: nat, now: int)
    requires id in t && RecordOk(t[id], clock)
    ensures Approve(t, id, now).error.None? <==> id in PendingRequests(t)
    ensures Deny(t, id, now).error == Approve(t, id, now).error
    ensures ClientPending(t[id]) <==> id in PendingRequests(t)
    ensures Approve(t, id, now).error == Some(AlreadyApproved) <==> t[id].grantedAt.Some?
    ensures Approve(t, id, now).error == Some(AlreadyDenied) <==> t[id].deniedAt.Some?
    ensures Approve(t, id, now).error == Some(WasRevoked) <==>
      t[id].revokedAt.Some? && t[id].grantedAt.None? && t[id].deniedAt.None?
  {
  }

  /** The table is the same but for this record. */
  predicate OnlyTouches(t: Table, t': Table, id: nat) { t'.Keys == t.Keys + {id} && t' - {id} == t - {id} }

  /** A decision stamps its record and touches nothing else; a refused one changes nothing. */
  lemma DecisionStamps(t: Table, id: nat, now: int)
    ensures Approve(t, id, now).error.Some? ==> Approve(t, id, now).table == t && Deny(t, id, now).table == t
    ensures id !in t ==> Approve(t, id, now).error == Deny(t, id, now).error == Some(NotFound)
    ensures Approve(t, id, now).error.None? ==>
      var (approved, denied) := (Approve(t, id, now).table, Deny(t, id, now).table);
      && OnlyTouches(t, approved, id) && OnlyTouches(t, denied, id)
      && approved[id].grantedAt == Some(now) && approved[id].(grantedAt := None) == t[id]
      && denied[id].deniedAt == Some(now) && denied[id].(deniedAt := None) == t[id]
  {
  }

  predicate DirectRecord(t: Table, x: nat, account: nat, user: nat) {
    x in t && t[x].account == account && t[x].holder == ForUser(user)
  }

  /** Neither denied nor revoked. */
  predicate StandingRecord(t: Table, x: nat, account: nat, user: nat) {
    DirectRecord(t, x, account, user) && t[x].revokedAt.None? && t[x].deniedAt.None?
  }

  lemma StandingAre(t: Table, account: nat, user: nat)
    ensures forall x :: x in Standing(t, account, ForUser(user)) <==> StandingRecord(t, x, account, user)
    ensures Standing(t, account, ForUser(user)) == {} <==> !exists x :: StandingRecord(t, x, account, user)
  {
    var standing := Standing(t, account, ForUser(user));
    forall x ensures x in standing <==> StandingRecord(t, x, account, user) {}
  }

  /**
   * A request is accepted exactly if the user has no standing record for the account and asks for 1 to 168
   * hours, or for no particular time, which means 12; it then waits as his only standing record, and no other
   * record is touched.
   */
  lemma RequestOutcome(w: World, id: nat, account: nat, user: nat, timeout: Option<int>, now: int, later: int)
    requires Inv(w) && id !in w.table
    ensures var o := Request(w.table, id, account, user, timeout, now, later);
      && (o.error.None? <==>
        (forall x :: !StandingRecord(w.table, x, account, user)) && (timeout.None? || 1 <= timeout.value <= 168))
      && (o.error == Some(AlreadyHaveAccess) <==>
        exists x :: StandingRecord(w.table, x, account, user) && w.table[x].grantedAt.Some?)
      && (o.error == Some(AlreadyPending) <==>
        exists x :: StandingRecord(w.table, x, account, user) && w.table[x].grantedAt.None?)
      && (o.error == Some(BadTimeout) <==>
        (forall x :: !StandingRecord(w.table, x, account, user)) && timeout.Some? && !(1 <= timeout.value <= 168))
      && (o.error.Some? ==> o.table == w.table)
      && (o.error.None? ==>
        && OnlyTouches(w.table, o.table, id) && id in PendingRequests(o.table)
        && o.table[id].requestedAt == Some(later)
        && o.table[id].grantedUntil == Some(now + if timeout.None? then 43200 else 3600 * timeout.value)
        && forall x :: StandingRecord(o.table, x, account, user) <==> x == id)
  {
    StandingAre(w.table, account, user);
    StandingIsOne(w, account, user);
  }

  lemma StandingIsOne(w: World, account: nat, user: nat)
    requires Inv(w)
    ensures forall x, y | StandingRecord(w.table, x, account, user) && StandingRecord(w.table, y, account, user) ::
      x == y
  {
  }

  /** A requested record gives access only between its grant, which follows the request, and 168 hours after the
      request. */
  lemma RequestedWindow(run: seq<Step>, clock: int, id: nat, now: int)
    requires PossibleRun(World(map[], clock), run)
    requires var w := Run(World(map[], clock), run);
      id in w.table && w.table[id].mode == Requested && w.clock <= now && ServerActive(w.table[id], now)
    ensures var r := Run(World(map[], clock), run).table[id];
      r.requestedAt.Some? && r.requestedAt.value <= r.grantedAt.value <= now < r.requestedAt.value + 604800
  {
    RunKeepsInv(World(map[], clock), run);
    assert RecordOk(Run(World(map[], clock), run).table[id], Run(World(map[], clock), run).clock);
  }

  predicate Covers(h: Holder, user: nat, groups: set<nat>) {
    match h case ForUser(u) => u == user case ForGroup(g) => g in groups
  }

  datatype Account = Account(workspace: nat, active: bool, databaseActive: bool)

  /** The query of `check_account_access`, which filters by the account. */
  predicate CheckAccountAccess(t: Table, admin: bool, user: nat, groups: set<nat>, account: nat, now: int) {
    || admin
    || (exists id :: id in t && Covers(t[id].holder, user, groups) && t[id].account == account
                     && t[id].revokedAt.None? && t[id].grantedAt.Some?
                       && (t[id].grantedUntil.None? || t[id].grantedUntil.value > now))
  }

  /** The two queries of `get_accessible_accounts`: grants in the workspace, and then the active accounts among
      theirs. */
  function AccessibleAccounts(t: Table, accounts: map<nat, Account>, workspace: nat, user: nat, groups: set<nat>,
      now: int): set<nat> {
    var grants := set id | id in t && Covers(t[id].holder, user, groups)
      && t[id].account in accounts && accounts[t[id].account].workspace == workspace
      && t[id].revokedAt.None? && t[id].grantedAt.Some? && (t[id].grantedUntil.None? || t[id].grantedUntil.value > now);
    var ids := set id | id in grants :: t[id].account;
    set a | a in accounts && a in ids && accounts[a].active && accounts[a].databaseActive
  }

  /** For a member the check passes exactly on the listed accounts, as far as these are active accounts of the
      workspace. */
  lemma CheckAgreesWithList(t: Table, accounts: map<nat, Account>, workspace: nat, user: nat, groups: set<nat>,
      account: nat, now: int)
    requires account in accounts
    ensures account in AccessibleAccounts(t, accounts, workspace, user, groups, now) <==>
      CheckAccountAccess(t, false, user, groups, account, now)
      && accounts[account].workspace == workspace && accounts[account].active && accounts[account].databaseActive
  {
  }

  /** Who passes the check: an administrator on every account, anybody else through a record of his own, or of one of
      his groups, that is in force. */
  lemma CheckPassesExactly(t: Table, admin: bool, user: nat, groups: set<nat>, account: nat, now: int)
    ensures admin ==> CheckAccountAccess(t, admin, user, groups, account, now)
    ensures !admin ==>
      (CheckAccountAccess(t, admin, user, groups, account, now) <==>
        || (exists id :: DirectRecord(t, id, account, user) && ServerActive(t[id], now))
        || (exists id, g :: g in groups && GroupRecord(t, id, account, g) && ServerActive(t[id], now)))
  {
    var grants := set id | id in t && t[id].account == account && Covers(t[id].holder, user, groups);
    if id :| id in grants && ServerActive(t[id], now) {
      match t[id].holder
      case ForUser(_) => assert DirectRecord(t, id, account, user);
      case ForGroup(g) => assert g in groups && GroupRecord(t, id, account, g);
    }
    if id :| DirectRecord(t, id, account, user) && ServerActive(t[id], now) {
      assert id in grants;
    }
    if id, g :| g in groups && GroupRecord(t, id, account, g) && ServerActive(t[id], now) {
      assert id in grants;
    }
  }

  predicate GroupRecord(t: Table, x: nat, account: nat, group: nat) {
    x in t && t[x].account == account && t[x].holder == ForGroup(group)
  }

  /** A revocation is accepted exactly for a stored, unrevoked record, of a user or a group; it stamps this record and
      touches nothing else. */
  lemma RevokeOutcome(t: Table, id: nat, now: int)
    ensures var o := Revoke(t, id, now);
      && (o.error.None? <==> id in t && t[id].revokedAt.None?)
      && (o.error == Some(NotFound) <==> id !in t)
      && (o.error.Some? ==> o.table == t)
      && (o.error.None? ==>
        && OnlyTouches(t, o.table, id)
        && o.table[id].revokedAt == Some(now) && o.table[id].(revokedAt := None) == t[id])
  {
  }

  /** Revoking takes effect at once: a member without a group grant loses the account with his direct record. */
  lemma RevokeCutsAccess(w: World, id: nat, user: nat, groups: set<nat>, now: int, later: int)
    requires Inv(w) && id in w.table && w.table[id].holder == ForUser(user) && w.table[id].revokedAt.None?
    requires w.table[id].deniedAt.None?
    requires forall g | g in w.table && w.table[g].holder.ForGroup? && w.table[g].holder.group in groups
      && w.table[g].account == w.table[id].account ::
      w.table[g].revokedAt.Some?
    ensures !CheckAccountAccess(Revoke(w.table, id, now).table, false, user, groups, w.table[id].account, later)
  {
    var t := Revoke(w.table, id, now).table;
    forall x | x in t && Covers(t[x].holder, user, groups) && ServerActive(t[x], later)
      ensures t[x].account != w.table[id].account {
      assert RecordOk(w.table[x], w.clock);
    }
  }

  /** A decision decides: after an approval the record counts until its expiry, after a denial never again. */
  lemma {:induction false} DecisionHolds(w: World, id: nat, now: int, run: seq<Step>, at: int)
    requires Inv(w) && w.clock <= now && PendingError(w.table, id).None?
    requires PossibleRun(World(Approve(w.table, id, now).table, now), run)
      || PossibleRun(World(Deny(w.table, id, now).table, now), run)
    ensures PossibleRun(World(Approve(w.table, id, now).table, now), run) ==>
      var t := Run(World(Approve(w.table, id, now).table, now), run).table;
      id in t && (ServerActive(t[id], at) <==> t[id].revokedAt.None? && at < w.table[id].grantedUntil.value)
    ensures PossibleRun(World(Deny(w.table, id, now).table, now), run) ==>
      var t := Run(World(Deny(w.table, id, now).table, now), run).table;
      id in t && !ServerActive(t[id], at)
  {
    assert RecordOk(w.table[id], w.clock);
    var approved, denied := World(Approve(w.table, id, now).table, now), World(Deny(w.table, id, now).table, now);
    StepKeepsInv(w, Approving(id, now));
    StepKeepsInv(w, Denying(id, now));
    if PossibleRun(approved, run) { StampsAreFinal(approved, run, id); }
    if PossibleRun(denied, run) { StampsAreFinal(denied, run, id); }
  }

  /**
   * A denied user may ask again at once, but as long as the denial is not revoked no administrator can
   * grant him the account: the denied record is taken for an existing grant.
   */
  lemma DenialBlocksGrant(w: World, id: nat, now: int, run: seq<Step>, newId: nat, until: Option<int>, at: int,
      timeout: Option<int>)
    requires Inv(w) && w.clock <= now && PendingError(w.table, id).None?
    requires PossibleRun(World(Deny(w.table, id, now).table, now), run)
    requires timeout.Some? ==> 0 < timeout.value <= 168
    ensures var r := w.table[id];
      r.holder.ForUser?
        && Request(Deny(w.table, id, now).table, newId, r.account, r.holder.user, timeout, now, now).error.None?
    ensures var r := w.table[id]; var t := Run(World(Deny(w.table, id, now).table, now), run).table;
      id in t && (t[id].revokedAt.None? ==>
        Grant(t, newId, r.account, Some(r.holder.user), None, until, at) == Outcome(t, Some(AlreadyGranted)))
  {
    var r := w.table[id];
    assert RecordOk(r, w.clock);
    var denied := World(Deny(w.table, id, now).table, now);
    StepKeepsInv(w, Denying(id, now));
    StampsAreFinal(denied, run, id);
    var t := Run(denied, run).table;
    assert t[id].revokedAt.None? ==> id in Unrevoked(t, r.account, r.holder);
    forall x ensures x !in Standing(denied.table, r.account, r.holder) {
      assert x in Standing(w.table, r.account, r.holder) ==> x == id;
    }
    assert Standing(denied.table, r.account, r.holder) == {};
  }

  function HolderOf(user: Option<nat>, group: Option<nat>): Holder
    requires user.Some? != group.Some?
  {
    if user.Some? then ForUser(user.value) else ForGroup(group.value)
  }

  /** The holder has an unrevoked record for the account. */
  ghost predicate HasRecord(t: Table, account: nat, holder: Holder) {
    exists x :: x in t && t[x].account == account && t[x].holder == holder && t[x].revokedAt.None?
  }

  lemma UnrevokedAre(t: Table, account: nat, holder: Holder)
    ensures HasRecord(t, account, holder) <==> Unrevoked(t, account, holder) != {}
  {
    if x :| x in Unrevoked(t, account, holder) { assert HasRecord(t, account, holder); }
    assert forall x | x in t && t[x].account == account && t[x].holder == holder && t[x].revokedAt.None? ::
      x in Unrevoked(t, account, holder);
  }

  /** A grant is accepted exactly if it names one holder and this holder has no unrevoked record; it is then in force
      until its expiry, and no other record is touched. */
  lemma GrantOutcome(t: Table, id: nat, account: nat, user: Option<nat>, group: Option<nat>, until: Option<int>,
      now: int)
    requires id !in t
    ensures var o := Grant(t, id, account, user, group, until, now);
      && o.error == (if user.Some? == group.Some? then Some(OneOfUserOrGroup)
                     else if HasRecord(t, account, HolderOf(user, group)) then Some(AlreadyGranted) else None)
      && (o.error.Some? ==> o.table == t)
      && (o.error.None? ==>
        && OnlyTouches(t, o.table, id)
        && o.table[id].account == account && o.table[id].holder == HolderOf(user, group)
        && o.table[id].grantedAt == Some(now)
        && forall at :: ServerActive(o.table[id], at) <==> until.None? || at < until.value)
  {
    if user.Some? != group.Some? { UnrevokedAre(t, account, HolderOf(user, group)); }
  }

  /** An accepted grant gives access: in every continuation in which it is not revoked its user, or a member of its
      group, passes the check until it expires. */
  lemma GrantGivesAccess(w: World, s: Step, run: seq<Step>, member: nat, groups: set<nat>, at: int)
    requires Inv(w) && Possible(w, s) && s.Granting? && Apply(w.table, s).error.None? && PossibleRun(Next(w, s), run)
    requires s.user == Some(member) || (s.group.Some? && s.group.value in groups)
    ensures var t := Run(Next(w, s), run).table;
      s.id in t && (t[s.id].revokedAt.None? && (s.until.None? || at < s.until.value) ==>
        CheckAccountAccess(t, false, member, groups, s.account, at))
  {
    GrantOutcome(w.table, s.id, s.account, s.user, s.group, s.until, s.now);
    StepKeepsInv(w, s);
    StampsAreFinal(Next(w, s), run, s.id);
    var t := Run(Next(w, s), run).table;
    assert ServerActive(Next(w, s).table[s.id], at) <==> s.until.None? || at < s.until.value;
    assert Covers(t[s.id].holder, member, groups);
  }

  /** Whoever adds an account has access to it, for any time, until this record is revoked. */
  lemma CreatorHasAccess(w: World, s: Step, run: seq<Step>, groups: set<nat>, at: int)
    requires Inv(w) && Possible(w, s) && s.NewAccount? && PossibleRun(Next(w, s), run)
    ensures var t := Run(Next(w, s), run).table;
      s.id in t && (t[s.id].revokedAt.None? ==> CheckAccountAccess(t, false, s.creator, groups, s.account, at))
  {
    StepKeepsInv(w, s);
    StampsAreFinal(Next(w, s), run, s.id);
    assert Covers(ForUser(s.creator), s.creator, groups);
  }

  /** Unrevoked, but no access: pending, denied or expired. */
  predicate Idle(r: Access, now: int) {
    && r.revokedAt.None?
    && (|| ClientPending(r) || r.deniedAt.Some?
        || (r.grantedAt.Some? && r.grantedUntil.Some? && r.grantedUntil.value <= now))
  }

  /** An administrator cannot grant an account to a user without direct access exactly if the user has a pending,
      denied or expired record. */
  lemma GrantRefusedExactly(w: World, id: nat, account: nat, user: nat, until: Option<int>, now: int)
    requires Inv(w) && forall x | DirectRecord(w.table, x, account, user) :: !ServerActive(w.table[x], now)
    ensures Grant(w.table, id, account, Some(user), None, until, now).error.Some? <==>
      exists x :: DirectRecord(w.table, x, account, user) && Idle(w.table[x], now)
  {
    forall x | DirectRecord(w.table, x, account, user)
      ensures w.table[x].revokedAt.None? <==> Idle(w.table[x], now)
    {
      assert RecordOk(w.table[x], w.clock);
    }
    var unrevoked := Unrevoked(w.table, account, ForUser(user));
    if unrevoked != {} {
      var x :| x in unrevoked;
      assert DirectRecord(w.table, x, account, user);
    }
    if x :| DirectRecord(w.table, x, account, user) && Idle(w.table[x], now) {
      assert x in unrevoked;
    }
  }

  /**
   * After a grant with an expiry, in every continuation in which it is not revoked, from the expiry on the user has
   * no direct access, and neither a request nor an administrator's grant is accepted.
   */
  lemma ExpiredGrantBlocks(w: World, id: nat, run: seq<Step>, newId: nat, timeout: Option<int>, until: Option<int>,
      at: int, later: int)
    requires Inv(w) && PossibleRun(w, run) && id in w.table && w.table[id].holder.ForUser?
    requires w.table[id].grantedAt.Some? && w.table[id].grantedUntil.Some? && w.table[id].grantedUntil.value <= at
    ensures var r := w.table[id]; var t := Run(w, run).table;
      id in t && (t[id].revokedAt.None? ==>
        && (forall x | DirectRecord(t, x, r.account, r.holder.user) :: !ServerActive(t[x], at))
        && Request(t, newId, r.account, r.holder.user, timeout, at, later) == Outcome(t, Some(AlreadyHaveAccess))
        && Grant(t, newId, r.account, Some(r.holder.user), None, until, at) == Outcome(t, Some(AlreadyGranted)))
  {
    var r := w.table[id];
    var t := Run(w, run).table;
    assert RecordOk(r, w.clock);
    StampsAreFinal(w, run, id);
    RunKeepsInv(w, run);
    if t[id].revokedAt.None? {
      assert t[id] == r;
      OnlyStanding(Run(w, run), id);
      assert First(Standing(t, r.account, r.holder)) == Some(id);
      assert id in Unrevoked(t, r.account, r.holder);
    }
  }

  /** A standing direct record is the only one, so it alone decides about direct access. */
  lemma OnlyStanding(w: World, id: nat)
    requires Inv(w) && id in w.table && w.table[id].holder.ForUser? && w.table[id].revokedAt.None?
    requires w.table[id].deniedAt.None?
    ensures var r := w.table[id];
      && Standing(w.table, r.account, r.holder) == {id}
      && forall x, at | DirectRecord(w.table, x, r.account, r.holder.user) :: ServerActive(w.table[x], at) ==> x == id
  {
    var r := w.table[id];
    forall x | x in Standing(w.table, r.account, r.holder) ensures x == id {}
    forall x, at | DirectRecord(w.table, x, r.account, r.holder.user) && ServerActive(w.table[x], at) ensures x == id {
      assert RecordOk(w.table[x], w.clock);
    }
  }

  /** That happens: an approved request for one hour, which the approval reaches in time. */
  lemma ExpiredGrantHappens()
    ensures var run := [Requesting(0, 5, 7, Some(1), 0, 0), Approving(0, 0)]; var t := Run(World(map[], 0), run).table;
      && PossibleRun(World(map[], 0), run) && 0 in t && t[0].revokedAt.None?
      && !CheckAccountAccess(t, false, 7, {}, 5, HOUR)
      && Request(t, 1, 5, 7, None, HOUR, HOUR).error == Some(AlreadyHaveAccess)
      && Grant(t, 1, 5, Some(7), None, None, HOUR).error == Some(AlreadyGranted)
  {
    var w0 := World(map[], 0);
    var first, second: Step := Requesting(0, 5, 7, Some(1), 0, 0), Approving(0, 0);
    var run := [first, second];
    assert Standing(w0.table, 5, ForUser(7)) == {};
    var w1 := Next(w0, first);
    var w2 := Next(w1, second);
    assert w1.table == map[0 := Access(5, ForUser(7), Requested, Some(0), None, Some(HOUR), None, None)];
    assert run[1..] == [second] && [second][1..] == [];
    assert Run(w0, run) == Run(w1, [second]) == Run(w2, []) == w2;
    assert PossibleRun(w1, [second]);
    StepKeepsInv(w0, first);
    StepKeepsInv(w1, second);
    ExpiredGrantBlocks(w2, 0, [], 1, None, None, HOUR, HOUR);
  }

  // ---------- Status over time ----------

  function Rank(s: Status): nat {
    match s
    case StatusPending => 0
    case StatusApproved => 1
    case StatusExpired => 2
    case StatusDenied => 2
    case StatusRevoked => 3
  }

  /** The reported status of a record only moves forward, over every run and while time passes. */
  lemma StatusMovesForward(w: World, run: seq<Step>, id: nat, now: int, later: int)
    requires Inv(w) && PossibleRun(w, run) && id in w.table && now <= later
    ensures id in Run(w, run).table
    ensures var s, s' := StatusOf(w.table[id], now), StatusOf(Run(w, run).table[id], later);
      Rank(s) < Rank(s') || s == s'
  {
    RowOverRun(w, run, id);
  }

  /** What a run leaves of a record: the same stamps, and perhaps more. */
  lemma {:induction false} RowOverRun(w: World, run: seq<Step>, id: nat)
    requires Inv(w) && PossibleRun(w, run) && id in w.table
    ensures var t := Run(w, run).table;
      && id in t
      && t[id].grantedUntil == w.table[id].grantedUntil
      && (w.table[id].grantedAt.Some? ==> t[id].grantedAt == w.table[id].grantedAt && t[id].deniedAt.None?)
      && (w.table[id].deniedAt.Some? ==> t[id].deniedAt == w.table[id].deniedAt && t[id].grantedAt.None?)
      && (w.table[id].revokedAt.Some? ==> t[id] == w.table[id])
      && !(t[id].grantedAt.Some? && t[id].deniedAt.Some?)
    decreases |run|
  {
    assert RecordOk(w.table[id], w.clock);
    if run != [] {
      RowsEvolve(w, run[0], id);
      StepKeepsInv(w, run[0]);
      RowOverRun(Next(w, run[0]), run[1..], id);
    }
  }
}
