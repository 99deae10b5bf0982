/** Which key of a user is selected, and the order of the stamps a key carries. */
module VaultKeys {
  import opened Common
  import opened VaultModel

  // ---------- Confirmation ----------

  /** A confirmation fails for an unknown key and for an unconfirmed, revoked one. It changes something exactly for an
      unconfirmed, unrevoked key: this one gets its stamp, the user's other unrevoked keys are revoked at the same
      instant, so that it is his only one, and all else stays. */
  lemma ConfirmLeavesOneKey(v: Vault, key: nat, t: int)
    ensures var o := ConfirmKey(v, key, t);
      && (o.error == if key !in v.keys then Some(KeyNotFound)
                     else if v.keys[key].confirmedAt.None? && v.keys[key].revokedAt.Some? then Some(Revoked) else None)
      && (o.v != v <==> key in v.keys && v.keys[key].confirmedAt.None? && v.keys[key].revokedAt.None?)
      && o.v == v.(keys := o.v.keys) && o.v.keys.Keys == v.keys.Keys
      && (o.v != v ==> o.v.keys[key] == v.keys[key].(confirmedAt := Some(t)))
      && (forall k | o.v != v && k in v.keys && v.keys[k].user == v.keys[key].user ::
            && (o.v.keys[k].revokedAt.None? <==> k == key)
            && (k != key ==> o.v.keys[k] == if v.keys[k].revokedAt.Some? then v.keys[k]
                                            else v.keys[k].(revokedAt := Some(t))))
      && (forall k | o.v != v && k in v.keys && v.keys[k].user != v.keys[key].user :: o.v.keys[k] == v.keys[k])
  {
    var o := ConfirmKey(v, key, t);
    if key in v.keys && v.keys[key].confirmedAt.None? && v.keys[key].revokedAt.None? {
      assert o.v.keys[key] != v.keys[key];
    }
  }

  // ---------- Uniqueness ----------

  /** Each user has at most one confirmed, unrevoked key. */
  ghost predicate OneCurrent(v: Vault) {
    forall a, b | a in v.keys && b in v.keys && v.keys[a].user == v.keys[b].user && v.keys[a].Current()
      && v.keys[b].Current() :: a == b
  }

  /** A solo key is born confirmed without revoking the user's current key. */
  predicate AddsSecond(v: Vault, s: Step) {
    s.Create? && s.solo && CurrentKeys(v, s.user) != {}
  }

  lemma ActivationKeepsCurrent(v: Vault, s: Step)
    requires s.Activate?
    ensures Apply(v, s).v.keys.Keys == v.keys.Keys
    ensures forall k | k in v.keys ::
      Apply(v, s).v.keys[k].user == v.keys[k].user && Apply(v, s).v.keys[k].Current() == v.keys[k].Current()
  {
  }

  /** Uniqueness survives every step except solo creation for a user who has a current key. */
  lemma StepKeepsOneCurrent(w: World, s: Step)
    requires OneCurrent(w.v) && Possible(w, s)
    ensures OneCurrent(Next(w, s).v) <==> !AddsSecond(w.v, s)
  {
    var v1 := Next(w, s).v;
    if s.Activate? {
      ActivationKeepsCurrent(w.v, s);
    } else if AddsSecond(w.v, s) {
      var k :| k in CurrentKeys(w.v, s.user);
      assert v1.keys[k].Current() && v1.keys[s.id].Current() && k != s.id;
    } else if s.Create? {
      assert forall k | k in w.v.keys && w.v.keys[k].user == s.user && w.v.keys[k].Current() ::
        k in CurrentKeys(w.v, s.user);
    }
  }

  predicate NeverAddsSecond(w: World, run: seq<Step>)
    decreases |run|
  {
    run == [] || (!AddsSecond(w.v, run[0]) && NeverAddsSecond(Next(w, run[0]), run[1..]))
  }

  /** In all states of the run each user has at most one current key. */
  ghost predicate AlwaysOneCurrent(w: World, run: seq<Step>)
    decreases |run|
  {
    OneCurrent(w.v) && (run != [] ==> AlwaysOneCurrent(Next(w, run[0]), run[1..]))
  }

  /** Uniqueness lasts over all states of a run if and only if no step adds a second key. */
  lemma {:induction false} RunKeepsOneCurrent(w: World, run: seq<Step>)
    requires OneCurrent(w.v) && PossibleRun(w, run)
    ensures AlwaysOneCurrent(w, run) <==> NeverAddsSecond(w, run)
    ensures NeverAddsSecond(w, run) ==> OneCurrent(Run(w, run).v)
    decreases |run|
  {
    if run != [] {
      StepKeepsOneCurrent(w, run[0]);
      if OneCurrent(Next(w, run[0]).v) { RunKeepsOneCurrent(Next(w, run[0]), run[1..]); }
    }
  }

  /** Whichever confirmed unrevoked key of any user is picked, it is the one the service calls current, if and only if
      these are unique. */
  lemma AnyRowIsCurrentExactly(v: Vault)
    ensures OneCurrent(v) <==> forall user, k | k in CurrentKeys(v, user) :: GetCurrentKey(v, user) == Some(k)
  {
    if OneCurrent(v) {
      forall user, k | k in CurrentKeys(v, user) ensures GetCurrentKey(v, user) == Some(k) { LookupsAgree(v, user); }
    } else {
      var a, b :| a in v.keys && b in v.keys && v.keys[a].user == v.keys[b].user && v.keys[a].Current()
        && v.keys[b].Current() && a != b;
      var user := v.keys[a].user;
      assert a in CurrentKeys(v, user) && b in CurrentKeys(v, user);
      assert GetCurrentKey(v, user) != Some(a) || GetCurrentKey(v, user) != Some(b);
    }
  }

  /** With unique current keys all lookups name the same key: the ordered service queries, the
      unordered ones of `activate_key` and `get_credentials`, and any row the database might put first. */
  lemma LookupsAgree(v: Vault, user: nat)
    requires OneCurrent(v)
    ensures GetActiveKey(v, user) == First(ActiveKeys(v, user))
    ensures GetCurrentKey(v, user) == if GetActiveKey(v, user).Some? then GetActiveKey(v, user)
      else GetPendingKey(v, user)
    ensures !(GetActiveKey(v, user).Some? && GetPendingKey(v, user).Some?)
    ensures forall k :: k in CurrentKeys(v, user) <==> GetCurrentKey(v, user) == Some(k)
  {
    var current := CurrentKeys(v, user);
    assert ActiveKeys(v, user) <= current && PendingKeys(v, user) <= current;
    if current != {} {
      var k := GetCurrentKey(v, user).value;
      assert current == {k};
      assert k in ActiveKeys(v, user) || k in PendingKeys(v, user);
    }
  }

  /** Two solo creations by one user: the service query and the query of `get_credentials` name different keys. */
  lemma SoloLookupsDisagree()
    ensures exists run: seq<Step> ::
      (PossibleRun(EMPTY, run) && GetActiveKey(Run(EMPTY, run).v, 1) != First(ActiveKeys(Run(EMPTY, run).v, 1)))
  {
    var s0 := Create(3, 1, "a", true, 1, 1, 1);
    var s1 := Create(7, 1, "b", true, 2, 2, 2);
    var run := [s0, s1];
    var w1 := Next(EMPTY, s0);
    var w2 := Next(w1, s1);
    assert run[1..] == [s1] && [s1][1..] == [];
    assert PossibleRun(w1, [s1]);
    assert Run(EMPTY, run) == Run(w1, [s1]) == w2;
    assert w2.v.keys.Keys == {3, 7};
    assert ActiveKeys(w2.v, 1) == {3, 7};
    assert w2.v.keys[7].approvedAt == Some(2) && w2.v.keys[3].approvedAt == Some(1);
    assert PossibleRun(EMPTY, run);
  }

  // ---------- Stamps ----------

  predicate AtMost(t: Option<int>, bound: int) { t.Some? ==> t.value <= bound }

  predicate AtLeast(t: Option<int>, bound: int) { t.Some? ==> bound <= t.value }

  /** No stamp lies in the future, and approval and revocation come after what they presuppose. */
  predicate Stamped(k: UserKey, clock: int) {
    && k.createdAt <= clock
    && AtMost(k.confirmedAt, clock) && AtMost(k.approvedAt, clock) && AtMost(k.revokedAt, clock)
    && (k.approvedAt.Some? ==> k.confirmedAt.Some? && k.confirmedAt.value <= k.approvedAt.value)
    && (k.revokedAt.Some? ==> k.createdAt <= k.revokedAt.value && AtMost(k.confirmedAt,
            k.revokedAt.value) && AtMost(k.approvedAt, k.revokedAt.value))
    && (AtLeast(k.confirmedAt, k.createdAt) || (k.approvedAt.Some? && k.approvedAt.value <= k.createdAt))
  }

  ghost predicate AllStamped(w: World) {
    forall k | k in w.v.keys :: Stamped(w.v.keys[k], w.clock)
  }

  /** Created, confirmed, approved, revoked: the set stamps in this order. */
  predicate InOrder(k: UserKey) {
    && AtLeast(k.confirmedAt, k.createdAt)
    && (k.approvedAt.Some? ==> k.confirmedAt.Some? && k.confirmedAt.value <= k.approvedAt.value)
    && (k.revokedAt.Some? ==> k.createdAt <= k.revokedAt.value && AtMost(k.confirmedAt,
            k.revokedAt.value) && AtMost(k.approvedAt, k.revokedAt.value))
  }

  ghost predicate AllInOrder(v: Vault) {
    forall k | k in v.keys :: InOrder(v.keys[k])
  }

  /** `create_key` reads the clock for a solo key's confirmation before the row gets its creation time. */
  predicate ConfirmedBeforeCreation(s: Step) {
    s.Create? && s.solo && s.tConfirm < s.tCreate
  }

  lemma CreationStamps(w: World, s: Step)
    requires AllStamped(w) && Possible(w, s) && s.Create?
    ensures AllStamped(Next(w, s))
    ensures AllInOrder(Next(w, s).v) <==> AllInOrder(w.v) && !ConfirmedBeforeCreation(s)
  {
    var w1 := Next(w, s);
    forall k | k in w1.v.keys ensures Stamped(w1.v.keys[k], w1.clock) {
      assert k in w.v.keys ==> Stamped(w.v.keys[k], w.clock);
    }
    assert InOrder(w1.v.keys[s.id]) <==> !ConfirmedBeforeCreation(s);
    assert forall k | k in w.v.keys :: w1.v.keys[k] == w.v.keys[k];
  }

  /** Later stamps of a key are set at later times, and only on keys not yet revoked. */
  lemma RestampKeepsOrder(k: UserKey, k': UserKey, clock: int, t: int)
    requires Stamped(k, clock) && clock <= t
    requires k' == k
      || (k.revokedAt.None? && k' == k.(revokedAt := Some(t)))
      || (k.revokedAt.None? && k.confirmedAt.None? && k' == k.(confirmedAt := Some(t)))
      || (k.revokedAt.None? && k.confirmedAt.Some? && k.approvedAt.None? && k' == k.(approvedAt := Some(t)))
    ensures Stamped(k', t) && (InOrder(k') <==> InOrder(k))
  {
  }

  /** What a lifecycle step does to a key: nothing, or one stamp. */
  lemma LaterStamp(w: World, s: Step, k: nat)
    requires AllStamped(w) && Possible(w, s) && (s.Confirm? || s.Activate? || s.Revoke?) && k in w.v.keys
    ensures w.clock <= s.t == Next(w, s).clock && k in Next(w, s).v.keys
    ensures Stamped(Next(w, s).v.keys[k], s.t) && (InOrder(Next(w, s).v.keys[k]) <==> InOrder(w.v.keys[k]))
  {
    assert Stamped(w.v.keys[k], w.clock);
    RestampKeepsOrder(w.v.keys[k], Next(w, s).v.keys[k], w.clock, s.t);
  }

  lemma LaterStamps(w: World, s: Step)
    requires AllStamped(w) && Possible(w, s) && (s.Confirm? || s.Activate? || s.Revoke?)
    ensures AllStamped(Next(w, s))
    ensures AllInOrder(Next(w, s).v) <==> AllInOrder(w.v)
  {
    var w1 := Next(w, s);
    assert w1.v.keys.Keys == w.v.keys.Keys;
    forall k | k in w.v.keys
      ensures Stamped(w1.v.keys[k], w1.clock) && (InOrder(w1.v.keys[k]) <==> InOrder(w.v.keys[k]))
    {
      LaterStamp(w, s, k);
    }
  }

  lemma StepKeepsStamps(w: World, s: Step)
    requires AllStamped(w) && Possible(w, s)
    ensures AllStamped(Next(w, s))
    ensures AllInOrder(Next(w, s).v) <==> AllInOrder(w.v) && !ConfirmedBeforeCreation(s)
  {
    if s.Create? { CreationStamps(w, s); }
    else if !s.Store? { LaterStamps(w, s); }
  }

  predicate NeverConfirmedBeforeCreation(run: seq<Step>) {
    forall s | s in run :: !ConfirmedBeforeCreation(s)
  }

  /** Over any run the stamps of all keys are in order if and only if no solo key was stamped
      confirmed strictly before it was created. */
  lemma {:induction false} StampsInOrder(w: World, run: seq<Step>)
    requires AllStamped(w) && PossibleRun(w, run)
    ensures AllStamped(Run(w, run))
    ensures AllInOrder(Run(w, run).v) <==> AllInOrder(w.v) && NeverConfirmedBeforeCreation(run)
    decreases |run|
  {
    if run != [] {
      StepKeepsStamps(w, run[0]);
      StampsInOrder(Next(w, run[0]), run[1..]);
      assert run == [run[0]] + run[1..];
    }
  }

  /** The clock advances while a key is created. */
  predicate Ticks(run: seq<Step>) {
    forall s | s in run :: s.Create? ==> s.tConfirm < s.tCreate
  }

  predicate NoSoloCreation(run: seq<Step>) {
    forall s | s in run :: !(s.Create? && s.solo)
  }

  /** Where the clock advances between the readings of a creation, the stamps of all keys are in order if and only
      if no solo administrator ever created one. */
  lemma SoloCreationBreaksOrder(w: World, run: seq<Step>)
    requires AllStamped(w) && PossibleRun(w, run) && Ticks(run)
    ensures AllInOrder(Run(w, run).v) <==> AllInOrder(w.v) && NoSoloCreation(run)
  {
    StampsInOrder(w, run);
    assert NoSoloCreation(run) <==> NeverConfirmedBeforeCreation(run) by {
      forall s | s in run ensures ConfirmedBeforeCreation(s) <==> s.Create? && s.solo {}
    }
  }
}
