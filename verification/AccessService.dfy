/** The access endpoints as they run: handlers that stamp records in place, and the history listing. */
module AccessService {
  import opened Common
  import AccessModel
  import opened AM = AccessModel

  /** The rows the history query selects. */
  function RequestedRows(t: Table): set<nat> {
    set id | id in t && t[id].mode == Requested && t[id].requestedAt.Some?
  }

  /** `order_by('-requested_at')` over those rows: each once, the latest request first. */
  ghost predicate NewestFirst(t: Table, order: seq<nat>) {
    && IsListing(order, RequestedRows(t))
    && (forall i | 0 <= i < |order| :: order[i] in RequestedRows(t))
    && forall i, j | 0 <= i < j < |order| :: t[order[i]].requestedAt.value >= t[order[j]].requestedAt.value
  }

  class Service {
    var table: Table

    constructor ()
      ensures table == map[]
    {
      table := map[];
    }

    method GrantAccess(id: nat, account: nat, user: Option<nat>, group: Option<nat>, until: Option<int>,
        now: int) returns (error: Option<Error>)
      modifies this
      ensures Outcome(table, error) == AccessModel.Grant(old(table), id, account, user, group, until, now)
      ensures AM.Inv(World(old(table), now)) && id !in old(table) ==> AM.Inv(World(table, now))
      ensures id !in old(table) ==>
        (error.None? <==> user.Some? != group.Some? && !HasRecord(old(table), account, HolderOf(user, group)))
    {
      if AM.Inv(World(table, now)) && id !in table {
        StepKeepsInv(World(table, now), Granting(id, account, user, group, until, now));
      }
      if id !in table { GrantOutcome(table, id, account, user, group, until, now); }
      if user.None? && group.None? { return Some(OneOfUserOrGroup); }
      if user.Some? && group.Some? { return Some(OneOfUserOrGroup); }
      var holder := if user.Some? then ForUser(user.value) else ForGroup(group.value);
      var existing := First(Unrevoked(table, account, holder));
      if existing.Some? { return Some(AlreadyGranted); }
      table := table[id := Access(account, holder, AdminSet, None, Some(now), until, None, None)];
      return None;
    }

    method RequestAccess(id: nat, account: nat, user: nat, timeout: Option<int>, now: int,
        later: int) returns (error: Option<Error>)
      modifies this
      ensures Outcome(table, error) == AccessModel.Request(old(table), id, account, user, timeout, now, later)
      ensures AM.Inv(World(old(table), now)) && id !in old(table) && now <= later ==>
        && AM.Inv(World(table, later))
        && (error.None? <==>
          (forall x :: !StandingRecord(old(table), x, account, user)) && (timeout.None? || 1 <= timeout.value <= 168))
        && (error.None? ==> id in PendingRequests(table))
    {
      if AM.Inv(World(table, now)) && id !in table && now <= later {
        StepKeepsInv(World(table, now), Requesting(id, account, user, timeout, now, later));
        RequestOutcome(World(table, now), id, account, user, timeout, now, later);
      }
      var existing := First(Standing(table, account, ForUser(user)));
      if existing.Some? {
        if table[existing.value].grantedAt.Some? { return Some(AlreadyHaveAccess); }
        return Some(AlreadyPending);
      }
      var hours := if timeout.Some? then timeout.value else 12;
      if hours <= 0 || hours > 168 { return Some(BadTimeout); }
      var until := now + hours * HOUR;
      table := table[id := Access(account, ForUser(user), Requested, Some(later), None, Some(until), None, None)];
      return None;
    }

    method ApproveAccess(id: nat, now: int) returns (error: Option<Error>)
      modifies this
      ensures Outcome(table, error) == AccessModel.Approve(old(table), id, now)
      ensures AM.Inv(World(old(table), now)) ==>
        AM.Inv(World(table, now)) && (error.None? <==> id in PendingRequests(old(table)))
    {
      if AM.Inv(World(table, now)) {
        StepKeepsInv(World(table, now), Approving(id, now));
        if id in table { PendingIsDecidable(table, now, id, now); }
      }
      if id !in table { return Some(NotFound); }
      var access := table[id];
      if access.grantedAt.Some? { return Some(AlreadyApproved); }
      if access.deniedAt.Some? { return Some(AlreadyDenied); }
      if access.revokedAt.Some? { return Some(WasRevoked); }
      if access.requestedAt.None? { return Some(NotARequest); }
      table := table[id := access.(grantedAt := Some(now))];
      return None;
    }

    method DenyAccess(id: nat, now: int) returns (error: Option<Error>)
      modifies this
      ensures Outcome(table, error) == AccessModel.Deny(old(table), id, now)
      ensures AM.Inv(World(old(table), now)) ==>
        AM.Inv(World(table, now)) && (error.None? <==> id in PendingRequests(old(table)))
    {
      if AM.Inv(World(table, now)) {
        StepKeepsInv(World(table, now), Denying(id, now));
        if id in table { PendingIsDecidable(table, now, id, now); }
      }
      if id !in table { return Some(NotFound); }
      var access := table[id];
      if access.grantedAt.Some? { return Some(AlreadyApproved); }
      if access.deniedAt.Some? { return Some(AlreadyDenied); }
      if access.revokedAt.Some? { return Some(WasRevoked); }
      if access.requestedAt.None? { return Some(NotARequest); }
      table := table[id := access.(deniedAt := Some(now))];
      return None;
    }

    method RevokeAccess(id: nat, now: int) returns (error: Option<Error>)
      modifies this
      ensures Outcome(table, error) == AccessModel.Revoke(old(table), id, now)
      ensures AM.Inv(World(old(table), now)) ==> AM.Inv(World(table, now))
      ensures error.None? <==> id in old(table) && old(table)[id].revokedAt.None?
      ensures error.None? ==> forall at :: !ServerActive(table[id], at) && !ClientActive(table[id], at)
    {
      if AM.Inv(World(table, now)) { StepKeepsInv(World(table, now), Revoking(id, now)); }
      if id !in table { return Some(NotFound); }
      if table[id].revokedAt.Some? { return Some(AlreadyRevoked); }
      table := table[id := table[id].(revokedAt := Some(now))];
      return None;
    }

    /**
     * The last 50 requests with their status; the clock is read anew for every row.
     * Nothing that is left out was requested after anything that is listed.
     */
    method History(order: seq<nat>, clock: seq<int>) returns (result: seq<(nat, Status)>)
      requires NewestFirst(table, order) && |clock| >= |order|
      ensures |result| == if |order| < 50 then |order| else 50
      ensures forall i | 0 <= i < |result| ::
        result[i].0 in RequestedRows(table) && result[i].1 == StatusOf(table[result[i].0], clock[i])
      ensures forall i, j | 0 <= i < j < |result| :: result[i].0 != result[j].0
      ensures forall id, i | id in RequestedRows(table) && 0 <= i < |result|
        && (forall j | 0 <= j < |result| :: result[j].0 != id) ::
        table[id].requestedAt.value <= table[result[i].0].requestedAt.value
    {
      var rows := if |order| <= 50 then order else order[..50];
      result := [];
      for n := 0 to |rows|
        invariant |result| == n
        invariant forall i | 0 <= i < n :: result[i] == (rows[i], StatusOf(table[rows[i]], clock[i]))
      {
        assert rows[n] in order;
        var access := table[rows[n]];
        var status;
        if access.revokedAt.Some? {
          status := StatusRevoked;
        } else if access.deniedAt.Some? {
          status := StatusDenied;
        } else if access.grantedAt.Some? {
          if access.grantedUntil.Some? && access.grantedUntil.value < clock[n] {
            status := StatusExpired;
          } else {
            status := StatusApproved;
          }
        } else {
          status := StatusPending;
        }
        result := result + [(rows[n], status)];
      }
      assert forall k | 0 <= k < |rows| :: result[k].0 == order[k];
      forall id, i | id in RequestedRows(table) && 0 <= i < |result|
        && (forall j | 0 <= j < |result| :: result[j].0 != id)
        ensures table[id].requestedAt.value <= table[result[i].0].requestedAt.value
      {
        var k :| 0 <= k < |order| && order[k] == id;
        assert order[i] == result[i].0;
      }
    }
  }
}
