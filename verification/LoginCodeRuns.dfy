/** The limits that hold over whole runs of requesting, verifying and cleaning up. */
module LoginCodeRuns {
  import opened Common
  import opened LoginCodeModel
  import Text

  // ---------- What every reachable state satisfies ----------

  /** The row of a creation: there until a cleanup a day later, with the stamps it was made with. */
  predicate RowOf(w: World, c: Creation) {
    && c.at <= w.clock
    && (c.id !in w.table ==> c.at < w.clock - DAY)
    && (c.id in w.table ==> Unchanged(w.table[c.id], c) && (w.table[c.id].verifiedAt.Some? <==> c.id in w.verified))
  }

  predicate Unchanged(r: LoginCode, c: Creation) {
    r.email == c.email && r.createdAt == c.at && r.expiresAt <= c.at + WINDOW
  }

  ghost predicate RowsOk(w: World) {
    forall i | 0 <= i < |w.created| :: RowOf(w, w.created[i])
  }

  ghost predicate Ordered(created: seq<Creation>) {
    forall i, j | 0 <= i < j < |created| :: created[i].id != created[j].id && created[i].at <= created[j].at
  }

  ghost predicate AllCreated(w: World) {
    && (forall id | id in w.table :: WasCreated(w.created, id))
    && (forall id | id in w.verified :: WasCreated(w.created, id))
  }

  /** No creation is the fourth within ten minutes. */
  ghost predicate Spaced(created: seq<Creation>) {
    forall i | 0 <= i < |created| :: |Earlier(created, i)| <= 2
  }

  ghost predicate OnlyOnce(verified: seq<nat>) {
    forall i, j | 0 <= i < j < |verified| :: verified[i] != verified[j]
  }

  ghost predicate Inv(w: World) {
    RowsOk(w) && Ordered(w.created) && AllCreated(w) && Spaced(w.created) && OnlyOnce(w.verified)
  }

  // ---------- Counting ----------

  function Ids(created: seq<Creation>, s: set<nat>): set<nat>
    requires forall i | i in s :: i < |created|
  {
    set i | i in s :: created[i].id
  }

  /** Distinct creations have distinct rows. */
  lemma {:induction false} SameCount(created: seq<Creation>, s: set<nat>)
    requires Ordered(created) && forall i | i in s :: i < |created|
    ensures |Ids(created, s)| == |s|
  {
    if s == {} {
      assert Ids(created, s) == {};
    } else {
      var x :| x in s;
      SameCount(created, s - {x});
      assert Ids(created, s) == Ids(created, s - {x}) + {created[x].id};
      forall i | i in s - {x} ensures created[i].id != created[x].id {
        assert i < x || x < i;
      }
    }
  }

  // ---------- Single steps ----------

  lemma StillCreated(created: seq<Creation>, more: seq<Creation>, id: nat)
    requires WasCreated(created, id)
    ensures WasCreated(created + more, id)
  {
    var i :| 0 <= i < |created| && created[i].id == id;
    assert (created + more)[i].id == id;
  }

  lemma NewWasNeverVerified(w: World, id: nat)
    requires AllCreated(w) && forall c | c in w.created :: c.id != id
    ensures id !in w.verified && id !in w.table
  {
    assert forall i | 0 <= i < |w.created| :: w.created[i] in w.created;
    assert !WasCreated(w.created, id);
  }

  /** The rows of the creations within the window are all seen by the query that counts them. */
  lemma WindowSeesThem(w: World, c: Creation, t0: int)
    requires RowsOk(w) && Ordered(w.created) && w.clock <= t0 <= c.at
    ensures |Earlier(w.created + [c], |w.created|)| <= |Recent(w.table, c.email, t0 - WINDOW)|
  {
    var s := Earlier(w.created + [c], |w.created|);
    forall i | i in s ensures w.created[i].id in Recent(w.table, c.email, t0 - WINDOW) {
      assert RowOf(w, w.created[i]);
      assert (w.created + [c])[i] == w.created[i];
    }
    SameCount(w.created, s);
    SubsetSize(Ids(w.created, s), Recent(w.table, c.email, t0 - WINDOW));
  }

  lemma AddedSpaced(w: World, c: Creation, t0: int)
    requires Inv(w) && w.clock <= t0 <= c.at && |Recent(w.table, c.email, t0 - WINDOW)| < 3
    ensures Spaced(w.created + [c])
  {
    var all := w.created + [c];
    forall i | 0 <= i < |all| ensures |Earlier(all, i)| <= 2 {
      if i == |w.created| {
        WindowSeesThem(w, c, t0);
      } else {
        assert Earlier(all, i) == Earlier(w.created, i);
      }
    }
  }

  lemma AddedOrdered(w: World, c: Creation)
    requires RowsOk(w) && Ordered(w.created) && w.clock <= c.at && forall x | x in w.created :: x.id != c.id
    ensures Ordered(w.created + [c])
  {
    var all := w.created + [c];
    forall i, j | 0 <= i < j < |all| ensures all[i].id != all[j].id && all[i].at <= all[j].at {
      assert all[i] == w.created[i] && RowOf(w, w.created[i]);
      assert w.created[i] in w.created;
    }
  }

  lemma RequestKeepsRows(w: World, s: Step)
    requires Inv(w) && Possible(w, s) && s.Requesting?
    ensures RowsOk(Next(w, s))
  {
    var w1 := Next(w, s);
    NewWasNeverVerified(w, s.id);
    forall i | 0 <= i < |w1.created| ensures RowOf(w1, w1.created[i]) {
      if i < |w.created| {
        assert w1.created[i] == w.created[i] && w.created[i] in w.created;
        assert RowOf(w, w.created[i]);
      }
    }
  }

  lemma RequestKeepsAllCreated(w: World, s: Step)
    requires Inv(w) && Possible(w, s) && s.Requesting?
    ensures AllCreated(Next(w, s))
  {
    var w1 := Next(w, s);
    var o := RequestCode(w.table, s.id, s.email, s.code, s.t0, s.t1, s.t2);
    if o.result.Ok? {
      var c := Creation(s.id, Text.Lower(s.email), s.t2);
      forall id | WasCreated(w.created, id) ensures WasCreated(w1.created, id) { StillCreated(w.created, [c], id); }
      assert w1.created[|w.created|].id == s.id;
    }
  }

  lemma RequestKeepsInv(w: World, s: Step)
    requires Inv(w) && Possible(w, s) && s.Requesting?
    ensures Inv(Next(w, s))
  {
    var o := RequestCode(w.table, s.id, s.email, s.code, s.t0, s.t1, s.t2);
    RequestKeepsRows(w, s);
    RequestKeepsAllCreated(w, s);
    if o.result.Ok? {
      var c := Creation(s.id, Text.Lower(s.email), s.t2);
      AddedSpaced(w, c, s.t0);
      AddedOrdered(w, c);
    }
  }

  /** A successful verification picks a live row, so one that was not verified before. */
  lemma VerifiedWasLive(w: World, s: Step)
    requires Inv(w) && Possible(w, s) && s.Verifying?
    ensures var r := VerifyCode(w.table, s.email, s.code, s.t0, s.t1).result;
      r.Ok? ==>
        r.value in Live(w.table, Text.Lower(s.email), s.t0) && r.value !in w.verified && WasCreated(w.created, r.value)
  {
    var r := VerifyCode(w.table, s.email, s.code, s.t0, s.t1).result;
    if r.Ok? {
      assert r.value in Matching(w.table, Text.Lower(s.email), Text.Strip(s.code), s.t0);
      var i :| 0 <= i < |w.created| && w.created[i].id == r.value;
      assert RowOf(w, w.created[i]);
    }
  }

  lemma VerifyKeepsRows(w: World, s: Step)
    requires Inv(w) && Possible(w, s) && s.Verifying?
    ensures RowsOk(Next(w, s))
  {
    var w1 := Next(w, s);
    VerifiedWasLive(w, s);
    forall i | 0 <= i < |w1.created| ensures RowOf(w1, w1.created[i]) {
      assert RowOf(w, w.created[i]);
    }
  }

  lemma VerifyKeepsInv(w: World, s: Step)
    requires Inv(w) && Possible(w, s) && s.Verifying?
    ensures Inv(Next(w, s))
  {
    VerifiedWasLive(w, s);
    VerifyKeepsRows(w, s);
    assert forall i | 0 <= i < |w.verified| :: w.verified[i] in w.verified;
  }

  lemma CleanupKeepsInv(w: World, s: Step)
    requires Inv(w) && Possible(w, s) && s.Cleaning?
    ensures Inv(Next(w, s))
  {
    var w1 := Next(w, s);
    forall i | 0 <= i < |w1.created| ensures RowOf(w1, w1.created[i]) {
      assert RowOf(w, w.created[i]);
    }
  }

  // ---------- Runs ----------

  lemma StepKeepsInv(w: World, s: Step)
    requires Inv(w) && Possible(w, s)
    ensures Inv(Next(w, s))
  {
    match s
    case Requesting(_, _, _, _, _, _) => RequestKeepsInv(w, s);
    case Verifying(_, _, _, _) => VerifyKeepsInv(w, s);
    case Cleaning(_) => CleanupKeepsInv(w, s);
  }

  lemma {:induction false} RunKeepsInv(w: World, run: seq<Step>)
    requires Inv(w) && PossibleRun(w, run)
    ensures Inv(Run(w, run))
    decreases |run|
  {
    if run != [] {
      StepKeepsInv(w, run[0]);
      RunKeepsInv(Next(w, run[0]), run[1..]);
    }
  }

  lemma SpanHoldsThree(w: World, email: string, from: int)
    requires Inv(w)
    ensures |InSpan(w.created, email, from)| <= 3
  {
    var s := InSpan(w.created, email, from);
    if s != {} {
      var last := TopExists(s, map i | i in s :: i);
      assert s - {last} <= Earlier(w.created, last);
      SubsetSize(s - {last}, Earlier(w.created, last));
    }
  }

  /** Over any run, at most three codes are created for an address in any ten minutes. */
  lemma RateIsLimited(clock: int, run: seq<Step>, email: string, from: int)
    requires PossibleRun(Start(clock), run)
    ensures |InSpan(Run(Start(clock), run).created, email, from)| <= 3
  {
    RunKeepsInv(Start(clock), run);
    SpanHoldsThree(Run(Start(clock), run), email, from);
  }

  /** The rows the limiter counts are those of the creations in the last ten minutes. */
  lemma RecentAreCreations(w: World, email: string, t0: int)
    requires Inv(w) && w.clock <= t0
    ensures Recent(w.table, email, t0 - WINDOW) == Ids(w.created, InSpan(w.created, email, t0 - 600))
  {
    var recent, span := Recent(w.table, email, t0 - WINDOW), InSpan(w.created, email, t0 - 600);
    forall i | i in span ensures w.created[i].id in recent { assert RowOf(w, w.created[i]); }
    forall x | x in recent ensures x in Ids(w.created, span) {
      assert WasCreated(w.created, x);
      var i :| 0 <= i < |w.created| && w.created[i].id == x;
      assert RowOf(w, w.created[i]);
      assert i in span;
    }
  }

  lemma RecentCount(w: World, email: string, t0: int)
    requires Inv(w) && w.clock <= t0
    ensures |Recent(w.table, email, t0 - WINDOW)| == |InSpan(w.created, email, t0 - 600)| <= 3
  {
    RecentAreCreations(w, email, t0);
    SameCount(w.created, InSpan(w.created, email, t0 - 600));
    SpanHoldsThree(w, email, t0 - 600);
  }

  /** The limiter turns a request away, and changes nothing, exactly when three codes were created for the address in
      the last ten minutes; otherwise one row is added. */
  lemma LimiterIsExact(w: World, id: nat, email: string, code: string, t0: int, t1: int, t2: int)
    requires Inv(w) && w.clock <= t0
    ensures var o := RequestCode(w.table, id, email, code, t0, t1, t2);
      && (o.result == Err(TooMany) <==> |InSpan(w.created, Text.Lower(email), t0 - 600)| == 3)
      && (o.result == Err(TooMany) ==> o.table == w.table)
      && (o.result != Err(TooMany) ==> o.result == Ok(id) && id in o.table && o.table == w.table[id := o.table[id]])
  {
    RecentCount(w, Text.Lower(email), t0);
  }

  predicate IsLive(t: Table, id: nat, email: string, now: int) {
    id in t && t[id].email == email && t[id].verifiedAt.None? && now < t[id].expiresAt
  }

  lemma LiveWereCreated(w: World, email: string, now: int, id: nat)
    requires Inv(w) && w.clock <= now && IsLive(w.table, id, email, now)
    ensures id in Ids(w.created, InSpan(w.created, email, now - 600))
  {
    assert WasCreated(w.created, id);
    var i :| 0 <= i < |w.created| && w.created[i].id == id;
    assert RowOf(w, w.created[i]);
    assert i in InSpan(w.created, email, now - 600);
  }

  /** So at no instant more than three codes of an address can be guessed. */
  lemma FewAreLive(clock: int, run: seq<Step>, email: string, now: int)
    requires PossibleRun(Start(clock), run) && Run(Start(clock), run).clock <= now
    ensures var t := Run(Start(clock), run).table; |set id | id in t && IsLive(t, id, email, now)| <= 3
  {
    RunKeepsInv(Start(clock), run);
    LiveCount(Run(Start(clock), run), email, now);
  }

  lemma LiveCount(w: World, email: string, now: int)
    requires Inv(w) && w.clock <= now
    ensures |set id | id in w.table && IsLive(w.table, id, email, now)| <= 3
  {
    var live := set id | id in w.table && IsLive(w.table, id, email, now);
    var span := InSpan(w.created, email, now - 600);
    forall id | id in live ensures id in Ids(w.created, span) { LiveWereCreated(w, email, now, id); }
    SameCount(w.created, span);
    SubsetSize(live, Ids(w.created, span));
    SpanHoldsThree(w, email, now - 600);
  }

  /** Each code verifies at most once, and only a code that was created. */
  lemma VerifiesAtMostOnce(clock: int, run: seq<Step>)
    requires PossibleRun(Start(clock), run)
    ensures var w := Run(Start(clock), run);
      OnlyOnce(w.verified) && forall id | id in w.verified :: WasCreated(w.created, id)
  {
    RunKeepsInv(Start(clock), run);
  }

  /** Within ten minutes of its creation, and only with the address and digits it was made for. */
  lemma VerifiesInTime(w: World, s: Step, i: nat)
    requires Inv(w) && Possible(w, s) && s.Verifying? && i < |w.created|
    requires VerifyCode(w.table, s.email, s.code, s.t0, s.t1).result == Ok(w.created[i].id)
    ensures w.created[i].email == Text.Lower(s.email) && w.created[i].at <= s.t0 < w.created[i].at + 600
    ensures w.table[w.created[i].id].code == Text.Strip(s.code) && w.created[i].id !in w.verified
  {
    VerifiedWasLive(w, s);
    assert w.created[i].id in Matching(w.table, Text.Lower(s.email), Text.Strip(s.code), s.t0);
    assert RowOf(w, w.created[i]);
  }

  /** What verification answers: one live code with these digits is accepted, none is refused, several are an error. */
  lemma VerifyOutcome(t: Table, email: string, code: string, t0: int, t1: int, id: nat)
    ensures var o := VerifyCode(t, email, code, t0, t1);
      var found := Matching(t, Text.Lower(email), Text.Strip(code), t0);
      && (o.result == Ok(id) <==> found == {id})
      && (o.result == Err(Unauthorized) <==> found == {})
      && (o.result.Err? ==> o.table == t)
      && (o.result == Ok(id) ==>
        o.table == t[id := t[id].(verifiedAt := Some(t1))] && id !in Live(o.table, Text.Lower(email), t0))
  {
    var found := Matching(t, Text.Lower(email), Text.Strip(code), t0);
    if |found| == 1 {
      var x := First(found).value;
      assert |found - {x}| == 0;
      assert found == {x} + (found - {x});
    }
  }

  // ---------- From the request to the verification ----------

  /** What a step leaves of a row: all but the stamp of the verification, or nothing. */
  lemma StepKeepsCode(w: World, s: Step, id: nat)
    requires Inv(w) && Possible(w, s) && WasCreated(w.created, id)
    ensures WasCreated(Next(w, s).created, id)
    ensures id in Next(w, s).table ==>
      id in w.table && Next(w, s).table[id].(verifiedAt := None) == w.table[id].(verifiedAt := None)
  {
    var i :| 0 <= i < |w.created| && w.created[i].id == id;
    assert w.created[i] in w.created;
    assert Next(w, s).created[i] == w.created[i];
    if s.Verifying? { VerifiedWasLive(w, s); }
  }

  lemma {:induction false} RunKeepsCode(w: World, run: seq<Step>, id: nat)
    requires Inv(w) && PossibleRun(w, run) && WasCreated(w.created, id)
    ensures var e := Run(w, run);
      && Inv(e) && w.created <= e.created
      && (id in e.table ==> id in w.table && e.table[id].(verifiedAt := None) == w.table[id].(verifiedAt := None))
    decreases |run|
  {
    if run != [] {
      StepKeepsCode(w, run[0], id);
      StepKeepsInv(w, run[0]);
      RunKeepsCode(Next(w, run[0]), run[1..], id);
    }
  }

  /** The row a request leaves, as it is at the end of a run: gone only a day later, and otherwise as it was made. */
  lemma CodeAtTheEnd(w: World, s: Step, run: seq<Step>)
    requires Inv(w) && Possible(w, s) && s.Requesting? && PossibleRun(Next(w, s), run)
    requires RequestCode(w.table, s.id, s.email, s.code, s.t0, s.t1, s.t2).result.Ok?
    ensures var e := Run(Next(w, s), run);
      if s.id in e.table then
        && e.table[s.id] == LoginCode(Text.Lower(s.email), s.code, s.t2, s.t1 + 600, e.table[s.id].verifiedAt)
        && (e.table[s.id].verifiedAt.Some? <==> s.id in e.verified)
      else s.t2 < e.clock - 86400
  {
    var w1 := Next(w, s);
    var e := Run(w1, run);
    var n := |w.created|;
    assert w1.created[n] == Creation(s.id, Text.Lower(s.email), s.t2);
    StepKeepsInv(w, s);
    RunKeepsCode(w1, run, s.id);
    assert e.created[n] == w1.created[n];
    assert RowOf(e, e.created[n]);
  }

  /** Another live code of the address with the same digits. */
  predicate IsTwin(t: Table, id: nat, email: string, digits: string, now: int) {
    IsLive(t, id, email, now) && t[id].code == digits
  }

  /** An accepted request gives a code that works: at any later time it is accepted exactly if the address, whatever its
      case, and the digits, whatever white space surrounds them, are those of the request, ten minutes have not passed
      since, the code was not accepted before, and no other live code of the address has the same digits. */
  lemma CodeIsAccepted(w: World, s: Step, run: seq<Step>, email: string, entered: string, at: int, stamp: int)
    requires Inv(w) && Possible(w, s) && s.Requesting? && PossibleRun(Next(w, s), run)
    requires RequestCode(w.table, s.id, s.email, s.code, s.t0, s.t1, s.t2).result.Ok?
    requires Run(Next(w, s), run).clock <= at
    ensures var e := Run(Next(w, s), run);
      VerifyCode(e.table, email, entered, at, stamp).result == Ok(s.id) <==>
        && Text.Lower(email) == Text.Lower(s.email) && Text.Strip(entered) == s.code
        && at < s.t1 + 600 && s.id !in e.verified
        && forall x | x != s.id :: !IsTwin(e.table, x, Text.Lower(email), Text.Strip(entered), at)
  {
    var e := Run(Next(w, s), run);
    CodeAtTheEnd(w, s, run);
    VerifyOutcome(e.table, email, entered, at, stamp, s.id);
    var found := Matching(e.table, Text.Lower(email), Text.Strip(entered), at);
    forall x ensures x in found <==> IsTwin(e.table, x, Text.Lower(email), Text.Strip(entered), at) {}
    assert found == {s.id} <==> s.id in found && forall x | x != s.id :: x !in found;
  }

  /** The cleanup deletes exactly the codes made more than a day before, and changes no other. */
  lemma CleanupExactly(w: World, now: int)
    requires Inv(w)
    ensures forall i | 0 <= i < |w.created| ::
      w.created[i].id in Cleanup(w.table, now) <==> w.created[i].id in w.table && now - 86400 <= w.created[i].at
    ensures forall id | id in Cleanup(w.table, now) :: id in w.table && Cleanup(w.table, now)[id] == w.table[id]
  {
    forall i | 0 <= i < |w.created|
      ensures w.created[i].id in Cleanup(w.table, now) <==>
        w.created[i].id in w.table && now - 86400 <= w.created[i].at
    {
      assert RowOf(w, w.created[i]);
    }
  }

  /** Two live codes with the same digits block each other: neither is accepted before one of them expires. */
  lemma TwinsBlock(t: Table, email: string, entered: string, a: nat, b: nat, t0: int, t1: int)
    requires a != b && a in Live(t, Text.Lower(email), t0) && b in Live(t, Text.Lower(email), t0)
    requires t[a].code == t[b].code == Text.Strip(entered)
    ensures VerifyCode(t, email, entered, t0, t1) == Outcome(t, Err(MultipleObjectsReturned))
  {
    var found := Matching(t, Text.Lower(email), t[a].code, t0);
    SubsetSize({a, b}, found);
  }

  /** Two requests that draw the same digits lead there, however these are typed in. */
  lemma TwinsHappen(code: string, entered: string)
    requires Text.Strip(entered) == code
    ensures var run := [Requesting(0, "a@b", code, 0, 0, 0), Requesting(1, "a@b", code, 0, 0, 0)];
      var w := Run(Start(0), run);
      PossibleRun(Start(0), run)
        && VerifyCode(w.table, "a@b", entered, 1, 1) == Outcome(w.table, Err(MultipleObjectsReturned))
  {
    var first, second := Requesting(0, "a@b", code, 0, 0, 0), Requesting(1, "a@b", code, 0, 0, 0);
    assert Text.Lower("a@b") == "a@b";
    assert Recent(map[], "a@b", -WINDOW) == {};
    var w1 := Next(Start(0), first);
    assert w1.table == map[0 := LoginCode("a@b", code, 0, WINDOW, None)];
    assert Recent(w1.table, "a@b", -WINDOW) == {0};
    var w2 := Next(w1, second);
    assert [first, second][1..] == [second] && [second][1..] == [];
    assert Run(Start(0), [first, second]) == Run(w1, [second]) == Run(w2, []) == w2;
    assert PossibleRun(w1, [second]);
    TwinsBlock(w2.table, "a@b", entered, 0, 1, 1, 1);
  }
}
