/** What the vault operations answer and leave behind, in terms of the rows, and what that means for their users. */
module VaultOutcomes {
  import opened Common
  import opened SymbolicCrypto
  import opened VaultModel
  import opened VaultRuns

  // ---------- The key a query selects ----------

  /** The filters of the query for a user's valid key. */
  predicate IsValid(v: Vault, user: nat, k: nat) {
    && k in v.keys && v.keys[k].user == user
    && v.keys[k].confirmedAt.Some? && v.keys[k].approvedAt.Some? && v.keys[k].revokedAt.None?
  }

  /** The row the query comes back with: of the valid keys the one with the least primary key. */
  ghost predicate Chosen(v: Vault, user: nat, k: nat) {
    IsValid(v, user, k) && forall x | IsValid(v, user, x) :: k <= x
  }

  lemma ChosenIsFirst(v: Vault, user: nat)
    ensures First(ActiveKeys(v, user)).None? <==> !exists k :: IsValid(v, user, k)
    ensures First(ActiveKeys(v, user)).Some? ==> Chosen(v, user, First(ActiveKeys(v, user)).value)
    ensures forall k: nat | Chosen(v, user, k) :: First(ActiveKeys(v, user)) == Some(k)
  {
    forall k ensures k in ActiveKeys(v, user) <==> IsValid(v, user, k) {}
  }

  // ---------- Reading ----------

  /** The answer of the credential query, for every user and every passphrase, where all shares agree. */
  lemma QueryAnswer(w: World, c: nat, user: nat, passphrase: string)
    requires Inv(w) && c in w.v.creds
    ensures var r := GetCredentials(w.v, c, user, passphrase);
      && (passphrase == "" ==> r == Err(PassphraseRequired))
      && (passphrase != "" ==> (r == Err(NoValidKey) <==> !exists k :: IsValid(w.v, user, k)))
      && forall k | passphrase != "" && Chosen(w.v, user, k) ::
        r == if Slot(c, k) !in w.v.shares then Err(NoAccess)
             else if passphrase == w.v.keys[k].privateKey.passphrase then Ok(w.texts[c])
             else Err(Crypto(WrongPassphrase))
  {
    ChosenIsFirst(w.v, user);
    if k :| Chosen(w.v, user, k) {
      ReadsWhatItHolds(w, c, k);
      if Slot(c, k) in w.v.shares { HeldUnwraps(w, c, k, passphrase); }
    }
  }

  /** In any state whatever, shares of both formats included: who gets an answer gave the passphrase of the chosen key,
      and this key holds a share. */
  lemma OnlyOwnPassphraseOpens(v: Vault, c: nat, user: nat, passphrase: string)
    requires c in v.creds && GetCredentials(v, c, user, passphrase).Ok?
    ensures exists k ::
      Chosen(v, user, k) && Slot(c, k) in v.shares && passphrase == v.keys[k].privateKey.passphrase != ""
  {
    ChosenIsFirst(v, user);
    assert Chosen(v, user, First(ActiveKeys(v, user)).value);
  }

  /** The answer through a share of the old format. */
  lemma OldShareAnswer(v: Vault, c: nat, user: nat, k: nat, passphrase: string, text: string, dek: nat)
    requires c in v.creds && Chosen(v, user, k) && passphrase != "" && Slot(c, k) in v.shares
    requires var held := v.shares[Slot(c, k)];
      held.encryptedKey == [] && held.encryptedData == EncryptWithPublicKey(text, v.keys[k].privateKey.pub, dek,
        held.nonce)
    ensures GetCredentials(v, c, user, passphrase)
      == if passphrase == v.keys[k].privateKey.passphrase then Ok(text) else Err(Crypto(WrongPassphrase))
  {
    var held := v.shares[Slot(c, k)];
    ChosenIsFirst(v, user);
    HybridRoundTrip(text, v.keys[k].privateKey.pub, dek, held.nonce, held.nonce, v.keys[k].privateKey, passphrase);
  }

  // ---------- Storing ----------

  lemma StoredShares(w: World, s: Step, c: nat, k: nat)
    requires Inv(w) && Possible(w, s) && s.Store? && s.storePassphrase != ""
    ensures Slot(c, k) in Next(w, s).v.shares <==>
      Slot(c, k) in w.v.shares || (c == s.cred && k in w.v.keys && IsValid(w.v, w.v.keys[k].user, k))
  {
  }

  lemma StoredRest(w: World, s: Step)
    requires Inv(w) && Possible(w, s) && s.Store? && s.storePassphrase != ""
    ensures var v1 := Next(w, s).v;
      && Apply(w.v, s).error.None?
      && v1.keys == w.v.keys && s.cred in v1.creds && v1.creds - {s.cred} == w.v.creds
      && (forall x | x in w.v.shares :: x in v1.shares && v1.shares[x] == w.v.shares[x])
  {
    forall x | x in w.v.shares ensures x.cred != s.cred { assert Agrees(w.v, x); }
  }

  lemma StoredReads(w: World, s: Step, user: nat, k: nat, q: string)
    requires Inv(w) && Possible(w, s) && s.Store? && s.storePassphrase != ""
    requires Chosen(Next(w, s).v, user, k) && q != ""
    ensures s.cred in Next(w, s).v.creds
    ensures GetCredentials(Next(w, s).v, s.cred, user, q)
      == if q == Next(w, s).v.keys[k].privateKey.passphrase then Ok(s.text) else Err(Crypto(WrongPassphrase))
  {
    StoredRest(w, s);
    StoreKeepsInv(w, s);
    StoredShares(w, s, s.cred, k);
    assert IsValid(w.v, user, k);
    QueryAnswer(Next(w, s), s.cred, user, q);
  }

  /** Storing gives a share of the new credential to exactly the valid keys and changes nothing else; each of their
      owners whose query chooses it reads the text, with the passphrase of that key only. */
  lemma StoreOutcome(w: World, s: Step)
    requires Inv(w) && Possible(w, s) && s.Store?
    ensures s.storePassphrase == "" ==> Apply(w.v, s) == Outcome(w.v, Some(PassphraseRequired))
    ensures s.storePassphrase != "" ==> var v1 := Next(w, s).v;
      && Apply(w.v, s).error.None?
      && v1.keys == w.v.keys && s.cred in v1.creds && v1.creds - {s.cred} == w.v.creds
      && (forall c, k :: Slot(c, k) in v1.shares <==>
        Slot(c, k) in w.v.shares || (c == s.cred && k in w.v.keys && IsValid(w.v, w.v.keys[k].user, k)))
      && (forall x | x in w.v.shares :: x in v1.shares && v1.shares[x] == w.v.shares[x])
      && forall user, k: nat, q | Chosen(v1, user, k) && q != "" ::
        GetCredentials(v1, s.cred, user, q)
          == if q == v1.keys[k].privateKey.passphrase then Ok(s.text) else Err(Crypto(WrongPassphrase))
  {
    if s.storePassphrase != "" {
      var v1 := Next(w, s).v;
      StoredRest(w, s);
      forall c, k ensures Slot(c, k) in v1.shares <==>
        Slot(c, k) in w.v.shares || (c == s.cred && k in w.v.keys && IsValid(w.v, w.v.keys[k].user, k))
      {
        StoredShares(w, s, c, k);
      }
      forall user, k: nat, q | Chosen(v1, user, k) && q != ""
        ensures GetCredentials(v1, s.cred, user, q)
          == if q == v1.keys[k].privateKey.passphrase then Ok(s.text) else Err(Crypto(WrongPassphrase))
      {
        StoredReads(w, s, user, k, q);
      }
    }
  }

  // ---------- Activation ----------

  /** When an activation is refused, and why. */
  lemma ActivationRefused(v: Vault, key: nat, admin: nat, passphrase: string, t: int, order: seq<nat>)
    ensures ActivationGuard(v, key, admin) ==
      if key !in v.keys then Some(KeyNotFound)
      else if v.keys[key].approvedAt.Some? then Some(AlreadyApproved)
      else if v.keys[key].confirmedAt.None? then Some(NotConfirmed)
      else if v.keys[key].revokedAt.Some? then Some(Revoked)
      else if exists k :: IsValid(v, admin, k) then None else Some(NoAdminKey)
    ensures ActivationGuard(v, key, admin).Some? ==>
      ActivateKey(v, key, admin, passphrase, t, order) == Outcome(v, ActivationGuard(v, key, admin))
  {
    ChosenIsFirst(v, admin);
  }

  /**
   An activation is accepted exactly for a confirmed, unapproved, unrevoked key and an administrator with a valid key.
   It approves the key, whatever the passphrase, and changes no other key and no credential. With the passphrase of
   the administrator's chosen key the new one gets a share of everything that key holds; otherwise it gets nothing,
   and this is an error exactly if there was something to get.
   */
  lemma ActivationOutcome(w: World, s: Step)
    requires Inv(w) && Possible(w, s) && s.Activate?
    ensures var o := Apply(w.v, s);
      o.v != w.v <==>
        s.key in w.v.keys && w.v.keys[s.key].approvedAt.None? && w.v.keys[s.key].confirmedAt.Some?
        && w.v.keys[s.key].revokedAt.None? && exists k :: IsValid(w.v, s.admin, k)
    ensures var (v, o) := (w.v, Apply(w.v, s));
      forall k | o.v != v && Chosen(v, s.admin, k) ::
        var right := s.adminPassphrase == v.keys[k].privateKey.passphrase;
        && s.key in v.keys && o.v.keys == v.keys[s.key := v.keys[s.key].(approvedAt := Some(s.t))]
        && o.v.creds == v.creds
        && (o.error == if right || (forall c :: Slot(c, k) !in v.shares) then None else Some(Crypto(WrongPassphrase)))
        && (forall x: Slot :: x in o.v.shares <==>
          x in v.shares || (x.key == s.key && right && Slot(x.cred, k) in v.shares))
  {
    ActivationRefused(w.v, s.key, s.admin, s.adminPassphrase, s.t, s.order);
    if ActivationGuard(w.v, s.key, s.admin).None? {
      ChosenIsFirst(w.v, s.admin);
      AcceptedActivation(w, s, First(ActiveKeys(w.v, s.admin)).value);
      AcceptedError(w, s, First(ActiveKeys(w.v, s.admin)).value);
      assert Apply(w.v, s).v.keys[s.key].approvedAt.Some?;
    }
  }

  /** All that the administrator's key holds is listed. */
  lemma PassedIs(w: World, s: Step, k: nat, x: Slot)
    requires Inv(w) && Possible(w, s) && s.Activate?
    ensures x in Passed(w.v, s.order, s.key, k) <==> x.key == s.key && Slot(x.cred, k) in w.v.shares
  {
    if Slot(x.cred, k) in w.v.shares {
      assert Agrees(w.v, Slot(x.cred, k));
      assert x.cred in s.order;
    }
  }

  lemma NothingPassed(w: World, s: Step, k: nat)
    requires Inv(w) && Possible(w, s) && s.Activate?
    ensures Passed(w.v, s.order, s.key, k) == {} <==> forall c :: Slot(c, k) !in w.v.shares
  {
    var passed := Passed(w.v, s.order, s.key, k);
    if passed != {} {
      var x :| x in passed;
      PassedIs(w, s, k, x);
    } else {
      forall c ensures Slot(c, k) !in w.v.shares { PassedIs(w, s, k, Slot(c, s.key)); }
    }
  }

  lemma AcceptedError(w: World, s: Step, k: nat)
    requires Inv(w) && Possible(w, s) && s.Activate? && ActivationGuard(w.v, s.key, s.admin).None?
    requires First(ActiveKeys(w.v, s.admin)) == Some(k)
    ensures Apply(w.v, s).error ==
      if s.adminPassphrase == w.v.keys[k].privateKey.passphrase || (forall c :: Slot(c, k) !in w.v.shares) then None
      else Some(Crypto(WrongPassphrase))
  {
    ApprovalKeepsInv(w, s.key, s.t);
    var w1 := World(Approved(w.v, s.key, s.t), w.texts, w.clock);
    ProvisionAgrees(w1, s.order, s.key, k, s.adminPassphrase);
    NothingPassed(w, s, k);
    assert Passed(w1.v, s.order, s.key, k) == Passed(w.v, s.order, s.key, k);
  }

  lemma AcceptedActivation(w: World, s: Step, k: nat)
    requires Inv(w) && Possible(w, s) && s.Activate? && ActivationGuard(w.v, s.key, s.admin).None?
    requires First(ActiveKeys(w.v, s.admin)) == Some(k)
    ensures var (v, v1) := (w.v, Apply(w.v, s).v); var right := s.adminPassphrase == v.keys[k].privateKey.passphrase;
      && v1.keys == v.keys[s.key := v.keys[s.key].(approvedAt := Some(s.t))]
      && v1.creds == v.creds
      && (forall x: Slot :: x in v1.shares <==>
        x in v.shares || (x.key == s.key && right && Slot(x.cred, k) in v.shares))
  {
    ActivationShares(w, s);
    forall x: Slot
      ensures x in Passed(w.v, s.order, s.key, k) <==> x.key == s.key && Slot(x.cred, k) in w.v.shares
    {
      PassedIs(w, s, k, x);
    }
  }

  /** After an activation with the right passphrase the owner reads what the administrator's key could read, with the
      passphrase of the new key. */
  lemma ActivatedReads(w: World, s: Step, adminKey: nat, c: nat, passphrase: string)
    requires Inv(w) && Possible(w, s) && s.Activate? && Next(w, s).v != w.v && Chosen(w.v, s.admin, adminKey)
    requires s.adminPassphrase == w.v.keys[adminKey].privateKey.passphrase && Slot(c, adminKey) in w.v.shares
    requires Chosen(Next(w, s).v, w.v.keys[s.key].user, s.key) && passphrase != ""
    ensures c in w.v.creds && c in Next(w, s).v.creds
    ensures GetCredentials(Next(w, s).v, c, w.v.keys[s.key].user, passphrase)
      == if passphrase == w.v.keys[s.key].privateKey.passphrase then Ok(w.texts[c]) else Err(Crypto(WrongPassphrase))
  {
    assert Agrees(w.v, Slot(c, adminKey));
    ActivationRefused(w.v, s.key, s.admin, s.adminPassphrase, s.t, s.order);
    ChosenIsFirst(w.v, s.admin);
    AcceptedActivation(w, s, adminKey);
    assert Slot(c, s.key) in Apply(w.v, s).v.shares;
    StepKeepsInv(w, s);
    QueryAnswer(Next(w, s), c, w.v.keys[s.key].user, passphrase);
  }

  // ---------- Revocation ----------

  /** A revocation succeeds for every key there is, stamps it unless it was revoked before, and changes nothing else. */
  lemma RevokeOutcome(v: Vault, key: nat, t: int)
    ensures var o := RevokeKey(v, key, t);
      && (o.error == if key in v.keys then None else Some(KeyNotFound))
      && o.v == v.(keys := o.v.keys) && o.v.keys.Keys == v.keys.Keys
      && (forall k | k in v.keys && k != key :: o.v.keys[k] == v.keys[k])
      && (key in v.keys ==> o.v.keys[key].revokedAt.Some? && o.v.keys[key] == v.keys[key].(revokedAt :=
        if v.keys[key].revokedAt.Some? then v.keys[key].revokedAt else Some(t)))
  {
  }

  /** No step touches owner, key pair or creation time of a key, nor the stamp of a revocation. */
  lemma StepKeepsRow(w: World, s: Step, k: nat)
    requires Possible(w, s) && k in w.v.keys
    ensures var keys := Next(w, s).v.keys;
      && k in keys && keys[k].user == w.v.keys[k].user && keys[k].publicKey == w.v.keys[k].publicKey
      && keys[k].privateKey == w.v.keys[k].privateKey && keys[k].createdAt == w.v.keys[k].createdAt
      && (w.v.keys[k].revokedAt.Some? ==> keys[k].revokedAt == w.v.keys[k].revokedAt)
  {
  }

  lemma {:induction false} RunKeepsRow(w: World, run: seq<Step>, k: nat)
    requires PossibleRun(w, run) && k in w.v.keys
    ensures var keys := Run(w, run).v.keys;
      && k in keys && keys[k].user == w.v.keys[k].user && keys[k].publicKey == w.v.keys[k].publicKey
      && keys[k].privateKey == w.v.keys[k].privateKey && keys[k].createdAt == w.v.keys[k].createdAt
      && (w.v.keys[k].revokedAt.Some? ==> keys[k].revokedAt == w.v.keys[k].revokedAt)
    decreases |run|
  {
    if run != [] {
      StepKeepsRow(w, run[0], k);
      RunKeepsRow(Next(w, run[0]), run[1..], k);
    }
  }

  /** A revoked key is revoked for good: in no continuation of an accepted revocation is it valid, or does its stamp
      change, or is it the key through which a query answers. */
  lemma RevokedForever(w: World, key: nat, t: int, run: seq<Step>)
    requires Possible(w, Revoke(key, t)) && Apply(w.v, Revoke(key, t)).error.None?
    requires PossibleRun(Next(w, Revoke(key, t)), run)
    ensures var (first, v) := (Next(w, Revoke(key, t)).v, Run(Next(w, Revoke(key, t)), run).v);
      && key in first.keys && first.keys[key].revokedAt.Some?
      && key in v.keys && v.keys[key].revokedAt == first.keys[key].revokedAt
      && !v.keys[key].Active() && (forall user :: !IsValid(v, user, key))
      && forall c, user, passphrase | c in v.creds && GetCredentials(v, c, user, passphrase).Ok? ::
        exists k :: Chosen(v, user, k) && k != key && passphrase == v.keys[k].privateKey.passphrase
  {
    RevokeOutcome(w.v, key, t);
    RunKeepsRow(Next(w, Revoke(key, t)), run, key);
    var v := Run(Next(w, Revoke(key, t)), run).v;
    forall c, user, passphrase | c in v.creds && GetCredentials(v, c, user, passphrase).Ok?
      ensures exists k :: Chosen(v, user, k) && k != key && passphrase == v.keys[k].privateKey.passphrase
    {
      OnlyOwnPassphraseOpens(v, c, user, passphrase);
    }
  }

  // ---------- From creation to reading ----------

  /** The passphrase shown when a key is created is the one that reads: at any later time at which the user's query
      chooses that key, a credential it holds a share of is read with this passphrase and with no other. */
  lemma CreatedKeyReads(w: World, s: Step, run: seq<Step>, c: nat, passphrase: string)
    requires Inv(w) && Possible(w, s) && s.Create? && PossibleRun(Next(w, s), run)
    ensures var e := Run(Next(w, s), run);
      && Inv(e) && s.id in e.v.keys && e.v.keys[s.id].user == s.user
      && (c in e.v.creds && Chosen(e.v, s.user, s.id) && Slot(c, s.id) in e.v.shares ==>
        (GetCredentials(e.v, c, s.user, passphrase) == Ok(e.texts[c]) <==> passphrase == s.passphrase))
  {
    var e := Run(Next(w, s), run);
    StepKeepsInv(w, s);
    RunKeepsInv(Next(w, s), run);
    RunKeepsRow(Next(w, s), run, s.id);
    if c in e.v.creds { QueryAnswer(e, c, s.user, passphrase); }
  }

  /** After a careful run that holds for every credential. */
  lemma CreatedKeyReadsAll(w: World, s: Step, run: seq<Step>, c: nat, passphrase: string)
    requires Inv(w) && Covered(w) && Possible(w, s) && s.Create? && PossibleRun(Next(w, s), run)
    requires Careful(w, s) && CarefulRun(Next(w, s), run)
    requires var e := Run(Next(w, s), run); c in e.v.creds && Chosen(e.v, s.user, s.id)
    ensures var e := Run(Next(w, s), run);
      Inv(e) && (GetCredentials(e.v, c, s.user, passphrase) == Ok(e.texts[c]) <==> passphrase == s.passphrase)
  {
    var e := Run(Next(w, s), run);
    StepKeepsCoverage(w, s);
    CoverageFrom(Next(w, s), run);
    EndsCovered(Next(w, s), run);
    CoveredMeansHeld(e);
    CreatedKeyReads(w, s, run, c, passphrase);
  }
}
