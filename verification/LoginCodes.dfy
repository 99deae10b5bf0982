/** Login codes as the endpoints and the cleanup task handle them: rows written in place. */
module LoginCodes {
  import opened Common
  import opened LM = LoginCodeModel
  import LR = LoginCodeRuns
  import Text

  /** What a request makes of the rows and of the record of all creations. */
  lemma Requested(w: World, id: nat, email: string, code: string, t0: int, t1: int, t2: int)
    requires LR.Inv(w) && Possible(w, Requesting(id, email, code, t0, t1, t2))
    ensures var lower := Text.Lower(email); var many := |Recent(w.table, lower, t0 - WINDOW)| >= 3;
      && Next(w, Requesting(id, email, code, t0, t1, t2)) == (
        if many then World(w.table, t2, w.created, w.verified)
        else World(w.table[id := LoginCode(lower, code, t2, t1 + WINDOW, None)], t2,
                   w.created + [Creation(id, lower, t2)], w.verified))
      && LR.Inv(Next(w, Requesting(id, email, code, t0, t1, t2)))
      && (many <==> |InSpan(w.created, lower, t0 - 600)| == 3)
  {
    LR.RequestKeepsInv(w, Requesting(id, email, code, t0, t1, t2));
    LR.LimiterIsExact(w, id, email, code, t0, t1, t2);
  }

  lemma Verified(w: World, email: string, code: string, t0: int, t1: int)
    requires LR.Inv(w) && Possible(w, Verifying(email, code, t0, t1))
    ensures var o := VerifyCode(w.table, email, code, t0, t1);
      var all := if o.result.Ok? then w.verified + [o.result.value] else w.verified;
      && LR.Inv(World(o.table, t1, w.created, all))
      && World(o.table, t1, w.created, all) == Next(w, Verifying(email, code, t0, t1))
      && (o.result.Ok? ==> o.result.value !in w.verified)
      && (o.result.Ok? <==> exists id :: Matching(w.table, Text.Lower(email), Text.Strip(code), t0) == {id})
  {
    LR.VerifyKeepsInv(w, Verifying(email, code, t0, t1));
    LR.VerifiedWasLive(w, Verifying(email, code, t0, t1));
    forall id { LR.VerifyOutcome(w.table, email, code, t0, t1, id); }
    var o := VerifyCode(w.table, email, code, t0, t1);
    if o.result.Ok? { assert Matching(w.table, Text.Lower(email), Text.Strip(code), t0) == {o.result.value}; }
  }

  lemma CleanedUp(w: World, now: int)
    requires LR.Inv(w) && w.clock <= now
    ensures LR.Inv(World(Cleanup(w.table, now), now, w.created, w.verified))
    ensures World(Cleanup(w.table, now), now, w.created, w.verified) == Next(w, Cleaning(now))
  {
    LR.CleanupKeepsInv(w, Cleaning(now));
  }

  function Stale(t: Table, now: int): set<nat> {
    set c | c in t && t[c].createdAt < now - DAY
  }

  lemma StaleGo(t: Table, now: int)
    ensures t - Stale(t, now) == Cleanup(t, now)
    ensures |Cleanup(t, now)| == |t| - |Stale(t, now)|
  {
    var kept := t - Stale(t, now);
    assert t.Keys == kept.Keys + Stale(t, now) && kept.Keys !! Stale(t, now);
    assert |t.Keys| == |kept.Keys| + |Stale(t, now)|;
    assert kept == Cleanup(t, now);
  }

  class Service {
    var codes: Table
    /** The last clock reading, and all codes ever created and verified. */
    ghost var clock: int
    ghost var created: seq<Creation>
    ghost var verified: seq<nat>

    ghost function View(): World
      reads this
    {
      World(codes, clock, created, verified)
    }

    ghost predicate Valid()
      reads this
    {
      LR.Inv(View())
    }

    constructor (now: int)
      ensures Valid() && View() == Start(now)
    {
      codes, clock, created, verified := map[], now, [], [];
    }

    /** Turned away exactly if three codes were created for the address in the last ten minutes. */
    method RequestLoginCode(id: nat, email: string, code: string, t0: int, t1: int, t2: int) returns (r: Result<nat,
        Error>)
      requires Valid() && Possible(View(), Requesting(id, email, code, t0, t1, t2))
      modifies this
      ensures Valid() && View() == Next(old(View()), Requesting(id, email, code, t0, t1, t2))
      ensures r == if |InSpan(old(created), Text.Lower(email), t0 - 600)| == 3 then Err(TooMany) else Ok(id)
      ensures r.Ok? ==> created == old(created) + [Creation(id, Text.Lower(email), t2)]
    {
      Requested(View(), id, email, code, t0, t1, t2);
      clock := t2;
      var lower := Text.Lower(email);
      var since := t0 - WINDOW;
      var recent := set c | c in codes && codes[c].email == lower && codes[c].createdAt >= since;
      assert recent == Recent(codes, lower, since);
      if |recent| >= 3 { return Err(TooMany); }
      var expiresAt := t1 + WINDOW;
      codes := codes[id := LoginCode(lower, code, t2, expiresAt, None)];
      created := created + [Creation(id, lower, t2)];
      return Ok(id);
    }

    /** A code is accepted at most once, and then it was live and the only one with these digits. */
    method VerifyLoginCode(email: string, code: string, t0: int, t1: int) returns (r: Result<nat, Error>)
      requires Valid() && Possible(View(), Verifying(email, code, t0, t1))
      modifies this
      ensures Valid() && View() == Next(old(View()), Verifying(email, code, t0, t1))
      ensures r == VerifyCode(old(codes), email, code, t0, t1).result
      ensures r.Ok? ==> r.value !in old(verified) && verified == old(verified) + [r.value]
      ensures r.Ok? <==> exists id :: Matching(old(codes), Text.Lower(email), Text.Strip(code), t0) == {id}
    {
      Verified(View(), email, code, t0, t1);
      clock := t1;
      var lower := Text.Lower(email);
      var stripped := Text.Strip(code);
      var found := set c | c in codes && codes[c].email == lower && codes[c].code == stripped
        && codes[c].verifiedAt.None? && codes[c].expiresAt > t0;
      assert found == Matching(codes, lower, stripped, t0);
      if found == {} { return Err(Unauthorized); }
      if |found| > 1 { return Err(MultipleObjectsReturned); }
      var id := First(found).value;
      MarkVerified(id, t1);
      verified := verified + [id];
      return Ok(id);
    }

    method MarkVerified(id: nat, t: int)
      requires id in codes
      modifies this`codes
      ensures codes == old(codes)[id := old(codes)[id].(verifiedAt := Some(t))]
    {
      codes := codes[id := codes[id].(verifiedAt := Some(t))];
    }

    method CleanupExpired(now: int) returns (deleted: nat)
      requires Valid() && clock <= now
      modifies this
      ensures Valid() && View() == Next(old(View()), Cleaning(now))
      ensures deleted == |old(codes)| - |codes|
    {
      CleanedUp(View(), now);
      var cutoff := now - DAY;
      var stale := set c | c in codes && codes[c].createdAt < cutoff;
      StaleGo(codes, now);
      assert stale == Stale(codes, now);
      deleted := |stale|;
      codes, clock := codes - stale, now;
    }
  }
}
