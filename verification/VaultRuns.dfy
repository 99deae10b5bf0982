/**
 Whole runs of a vault workspace that starts empty: every stored share unwraps to the DEK
 that seals its credential, and which steps keep every active key able to read everything.
 */
module VaultRuns {
  import opened Common
  import opened SymbolicCrypto
  import opened VaultModel

  // ---------- The invariant ----------

  predicate KeyOk(k: UserKey) {
    && k.privateKey.pub == k.publicKey
    && k.privateKey.passphrase != ""
    && (k.approvedAt.Some? ==> k.confirmedAt.Some?)
  }

  /** `cred` is `text` sealed under a DEK drawn earlier. */
  predicate Seals(cred: Credential, text: string, drawn: nat) {
    && cred.data != [] && cred.data[0].Aead?
    && cred.data[0].key < drawn
    && cred.data == Seal(cred.data[0].key, cred.nonce, text)
  }

  /** The DEK that seals a credential. */
  function SealingDek(cred: Credential): nat {
    if cred.data != [] && cred.data[0].Aead? then cred.data[0].key else 0
  }

  /** The share is held by a key that was once approved, and wraps the sealing DEK for it. */
  predicate Agrees(v: Vault, s: Slot)
    requires s in v.shares
  {
    && s.cred in v.creds && s.key in v.keys
    && v.keys[s.key].approvedAt.Some?
    && v.shares[s].encryptedKey == RsaEncrypt(v.keys[s.key].publicKey, SealingDek(v.creds[s.cred]))
  }

  ghost predicate SharesAgree(v: Vault) { forall s | s in v.shares :: Agrees(v, s) }

  ghost predicate Inv(w: World) {
    && (forall k | k in w.v.keys :: KeyOk(w.v.keys[k]))
    && w.texts.Keys == w.v.creds.Keys
    && (forall c | c in w.v.creds :: Seals(w.v.creds[c], w.texts[c], w.v.entropy))
    && SharesAgree(w.v)
  }

  /** A wrapped DEK is never the empty string, so the share is read in the new format. */
  lemma WrappedNotEmpty(pub: nat, dek: nat)
    ensures RsaEncrypt(pub, dek) != []
  {
    assert |RsaEncrypt(pub, dek)| == RSA_BLOCK;
  }

  // ---------- Provisioning in states where all shares agree ----------

  /** The holder's share of `c` unwraps to the DEK of `c`, exactly with the holder's passphrase. */
  lemma HeldUnwraps(w: World, c: nat, k: nat, passphrase: string)
    requires Inv(w) && Slot(c, k) in w.v.shares
    ensures w.v.shares[Slot(c, k)].NewFormat()
    ensures Unwrap(w.v.shares[Slot(c, k)].encryptedKey, w.v.keys[k].privateKey, passphrase)
         == if passphrase == w.v.keys[k].privateKey.passphrase then Ok(SealingDek(w.v.creds[c]))
           else Err(WrongPassphrase)
  {
    assert Agrees(w.v, Slot(c, k));
    assert KeyOk(w.v.keys[k]);
    WrappedNotEmpty(w.v.keys[k].publicKey, SealingDek(w.v.creds[c]));
    UnwrapWrap(w.v.keys[k].publicKey, SealingDek(w.v.creds[c]), w.v.keys[k].privateKey, passphrase);
  }

  /** One credential: a right passphrase gives the new key a share that agrees, a wrong one stops. */
  lemma ProvisionOneAgrees(w: World, c: nat, newKey: nat, adminKey: nat, passphrase: string)
    requires Inv(w) && newKey in w.v.keys && adminKey in w.v.keys && w.v.keys[newKey].approvedAt.Some?
    ensures var o := ProvisionOne(w.v, c, newKey, adminKey, passphrase);
      if Slot(c, adminKey) !in w.v.shares then o == Outcome(w.v, None)
      else if passphrase != w.v.keys[adminKey].privateKey.passphrase
        then o == Outcome(w.v, Some(Crypto(WrongPassphrase)))
      else
        && o.error.None?
        && o.v == w.v.(shares := o.v.shares)
        && o.v.shares.Keys == w.v.shares.Keys + {Slot(c, newKey)}
        && SharesAgree(o.v)
  {
    if Slot(c, adminKey) in w.v.shares {
      HeldUnwraps(w, c, adminKey, passphrase);
      if passphrase == w.v.keys[adminKey].privateKey.passphrase {
        var v1 := ProvisionOne(w.v, c, newKey, adminKey, passphrase).v;
        assert Agrees(w.v, Slot(c, adminKey));
        forall s | s in v1.shares ensures Agrees(v1, s) {
          assert s == Slot(c, newKey) || Agrees(w.v, s);
        }
      }
    }
  }

  /** The slots of `newKey` for the listed credentials of which `adminKey` holds a share. */
  function Passed(v: Vault, order: seq<nat>, newKey: nat, adminKey: nat): set<Slot> {
    set c | c in order && Slot(c, adminKey) in v.shares :: Slot(c, newKey)
  }

  lemma {:induction false} ProvisionWrong(w: World, order: seq<nat>, newKey: nat, adminKey: nat, passphrase: string)
    requires Inv(w) && newKey in w.v.keys && adminKey in w.v.keys && newKey != adminKey
    requires w.v.keys[newKey].approvedAt.Some? && passphrase != w.v.keys[adminKey].privateKey.passphrase
    ensures var o := ProvisionAll(w.v, order, newKey, adminKey, passphrase);
      && o.v == w.v
      && o.error == if Passed(w.v, order, newKey, adminKey) == {} then None else Some(Crypto(WrongPassphrase))
    decreases |order|
  {
    if order != [] {
      ProvisionOneAgrees(w, order[0], newKey, adminKey, passphrase);
      PassedSplits(w.v, w.v, order, newKey, adminKey);
      if Slot(order[0], adminKey) !in w.v.shares { ProvisionWrong(w, order[1..], newKey, adminKey, passphrase); }
    }
  }

  /** A round with the right passphrase: what it adds and what is left to pass on make up the whole. */
  lemma RoundRight(w: World, order: seq<nat>, newKey: nat, adminKey: nat, passphrase: string)
    requires Inv(w) && newKey in w.v.keys && adminKey in w.v.keys && newKey != adminKey && order != []
    requires w.v.keys[newKey].approvedAt.Some? && passphrase == w.v.keys[adminKey].privateKey.passphrase
    ensures var o := ProvisionOne(w.v, order[0], newKey, adminKey, passphrase);
      && o.error.None?
      && o.v == w.v.(shares := o.v.shares)
      && o.v.shares.Keys + Passed(o.v, order[1..], newKey, adminKey)
         == w.v.shares.Keys + Passed(w.v, order, newKey, adminKey)
      && Inv(World(o.v, w.texts, w.clock))
  {
    ProvisionOneAgrees(w, order[0], newKey, adminKey, passphrase);
    PassedSplits(w.v, ProvisionOne(w.v, order[0], newKey, adminKey, passphrase).v, order, newKey, adminKey);
  }

  lemma {:induction false} ProvisionRight(w: World, order: seq<nat>, newKey: nat, adminKey: nat, passphrase: string)
    requires Inv(w) && newKey in w.v.keys && adminKey in w.v.keys && newKey != adminKey
    requires w.v.keys[newKey].approvedAt.Some? && passphrase == w.v.keys[adminKey].privateKey.passphrase
    ensures var o := ProvisionAll(w.v, order, newKey, adminKey, passphrase);
      && o.error.None?
      && o.v == w.v.(shares := o.v.shares)
      && o.v.shares.Keys == w.v.shares.Keys + Passed(w.v, order, newKey, adminKey)
      && SharesAgree(o.v)
    decreases |order|
  {
    if order == [] {
      assert w.v.shares.Keys == w.v.shares.Keys + Passed(w.v, order, newKey, adminKey);
    } else {
      var one := ProvisionOne(w.v, order[0], newKey, adminKey, passphrase).v;
      RoundRight(w, order, newKey, adminKey, passphrase);
      ProvisionRight(World(one, w.texts, w.clock), order[1..], newKey, adminKey, passphrase);
    }
  }

  /** Provisioning in any order: all of the admin's shares are passed on, or, with a wrong passphrase, none. */
  lemma ProvisionAgrees(w: World, order: seq<nat>, newKey: nat, adminKey: nat, passphrase: string)
    requires Inv(w) && newKey in w.v.keys && adminKey in w.v.keys && newKey != adminKey
    requires w.v.keys[newKey].approvedAt.Some?
    ensures var o := ProvisionAll(w.v, order, newKey, adminKey, passphrase);
      if passphrase != w.v.keys[adminKey].privateKey.passphrase then
        && o.v == w.v
        && o.error == if Passed(w.v, order, newKey, adminKey) == {} then None else Some(Crypto(WrongPassphrase))
      else
        && o.error.None?
        && o.v == w.v.(shares := o.v.shares)
        && o.v.shares.Keys == w.v.shares.Keys + Passed(w.v, order, newKey, adminKey)
        && SharesAgree(o.v)
  {
    if passphrase == w.v.keys[adminKey].privateKey.passphrase {
      ProvisionRight(w, order, newKey, adminKey, passphrase);
    } else {
      ProvisionWrong(w, order, newKey, adminKey, passphrase);
    }
  }

  lemma PassedSplits(v: Vault, v1: Vault, order: seq<nat>, newKey: nat, adminKey: nat)
    requires order != [] && newKey != adminKey
    requires v1.shares.Keys == v.shares.Keys || v1.shares.Keys == v.shares.Keys + {Slot(order[0], newKey)}
    ensures Passed(v, order, newKey, adminKey)
         == (if Slot(order[0], adminKey) in v.shares then {Slot(order[0], newKey)} else {})
            + Passed(v1, order[1..], newKey, adminKey)
  {
    assert forall c :: c in order <==> c == order[0] || c in order[1..];
    assert forall c :: Slot(c, adminKey) in v1.shares <==> Slot(c, adminKey) in v.shares;
  }

  // ---------- Every step keeps the invariant ----------

  lemma ApprovalKeepsInv(w: World, key: nat, t: int)
    requires Inv(w) && key in w.v.keys && w.v.keys[key].confirmedAt.Some?
    ensures Inv(World(Approved(w.v, key, t), w.texts, w.clock))
  {
    var v1 := Approved(w.v, key, t);
    forall s | s in v1.shares ensures Agrees(v1, s) { assert Agrees(w.v, s); }
  }

  /** Public keys stay and no approval is withdrawn. */
  ghost predicate KeepsKeys(v: Vault, v1: Vault) {
    && v1.creds == v.creds && v1.shares == v.shares && v.entropy <= v1.entropy
    && (forall k | k in v1.keys :: KeyOk(v1.keys[k]))
    && (forall k | k in v.keys ::
      k in v1.keys && v1.keys[k].publicKey == v.keys[k].publicKey && v1.keys[k].approvedAt == v.keys[k].approvedAt)
  }

  lemma CreateKeepsKeys(w: World, s: Step)
    requires Inv(w) && Possible(w, s) && s.Create?
    ensures KeepsKeys(w.v, Next(w, s).v)
  {
  }

  lemma ConfirmedKeepsKeys(v: Vault, key: nat, t: int)
    requires key in v.keys && forall k | k in v.keys :: KeyOk(v.keys[k])
    ensures KeepsKeys(v, Confirmed(v, key, t))
  {
  }

  lemma ConfirmKeepsKeys(w: World, s: Step)
    requires Inv(w) && s.Confirm?
    ensures KeepsKeys(w.v, Next(w, s).v)
  {
    assert Next(w, s).v == ConfirmKey(w.v, s.key, s.t).v;
    if s.key in w.v.keys { ConfirmedKeepsKeys(w.v, s.key, s.t); }
  }

  lemma RevokeKeepsKeys(w: World, s: Step)
    requires Inv(w) && s.Revoke?
    ensures KeepsKeys(w.v, Next(w, s).v)
  {
  }

  lemma KeyStepKeepsInv(w: World, s: Step)
    requires Inv(w) && Possible(w, s) && (s.Create? || s.Confirm? || s.Revoke?)
    ensures Inv(Next(w, s))
  {
    if s.Create? { CreateKeepsKeys(w, s); } else if s.Confirm? { ConfirmKeepsKeys(w, s); }
      else { RevokeKeepsKeys(w, s); }
    var v1 := Next(w, s).v;
    forall x | x in v1.shares ensures Agrees(v1, x) { assert Agrees(w.v, x); }
  }

  lemma StoreKeepsInv(w: World, s: Step)
    requires Inv(w) && Possible(w, s) && s.Store?
    ensures Inv(Next(w, s))
  {
    if s.storePassphrase != "" {
      var w1 := Next(w, s);
      var cred := w1.v.creds[s.cred];
      assert cred.data[0] == Aead(w.v.entropy, w.v.entropy + 1, s.text, 0);
      forall c | c in w1.v.creds ensures Seals(w1.v.creds[c], w1.texts[c], w1.v.entropy) {
        assert c == s.cred || Seals(w.v.creds[c], w.texts[c], w.v.entropy);
      }
      forall x | x in w1.v.shares ensures Agrees(w1.v, x) {
        assert x in SharesFor(w.v, s.cred, ValidKeys(w.v), w.v.entropy) || Agrees(w.v, x);
      }
    }
  }

  /** Share agreement, and once-approved holders only, are kept by every step, failed ones included. */
  lemma StepKeepsInv(w: World, s: Step)
    requires Inv(w) && Possible(w, s)
    ensures Inv(Next(w, s))
  {
    match s
    case Activate(key, admin, passphrase, t, order) =>
      if ActivationGuard(w.v, key, admin).None? {
        ApprovalKeepsInv(w, key, t);
        var w1 := World(Approved(w.v, key, t), w.texts, w.clock);
        ProvisionAgrees(w1, order, key, First(ActiveKeys(w.v, admin)).value, passphrase);
      }
    case Store(_, _, _) => StoreKeepsInv(w, s);
    case _ => KeyStepKeepsInv(w, s);
  }

  lemma {:induction false} RunKeepsInv(w: World, run: seq<Step>)
    requires Inv(w) && PossibleRun(w, run)
    ensures Inv(Run(w, run))
    decreases |run|
  {
    if run != [] {
      StepKeepsInv(w, run[0]);
      RunKeepsInv(Next(w, run[0]), run[1..]);
    }
  }

  // ---------- Full coverage ----------

  /** Every active key can open every credential, with its own passphrase, to the stored text. */
  ghost predicate Covered(w: World)
    requires w.v.creds.Keys <= w.texts.Keys
  {
    forall k, c | k in w.v.keys && w.v.keys[k].Active() && c in w.v.creds ::
      ReadWithKey(w.v, c, k, w.v.keys[k].privateKey.passphrase) == Ok(w.texts[c])
  }

  /** Every active key holds a share of every credential. */
  ghost predicate AllHeld(v: Vault) {
    forall k, c | k in v.keys && v.keys[k].Active() && c in v.creds :: Slot(c, k) in v.shares
  }

  /** Where shares agree, a key reads a credential exactly when it holds a share. */
  lemma ReadsWhatItHolds(w: World, c: nat, k: nat)
    requires Inv(w) && c in w.v.creds && k in w.v.keys
    ensures ReadWithKey(w.v, c, k, w.v.keys[k].privateKey.passphrase)
         == if Slot(c, k) in w.v.shares then Ok(w.texts[c]) else Err(NoAccess)
  {
    if Slot(c, k) in w.v.shares {
      var cred := w.v.creds[c];
      HeldUnwraps(w, c, k, w.v.keys[k].privateKey.passphrase);
      OpenSeal(SealingDek(cred), cred.nonce, w.texts[c], SealingDek(cred), cred.nonce);
    }
  }

  lemma CoveredMeansHeld(w: World)
    requires Inv(w)
    ensures Covered(w) <==> AllHeld(w.v)
  {
    forall k, c | k in w.v.keys && c in w.v.creds
      ensures ReadWithKey(w.v, c, k, w.v.keys[k].privateKey.passphrase) == Ok(w.texts[c]) <==> Slot(c, k) in w.v.shares
    {
      ReadsWhatItHolds(w, c, k);
    }
  }

  /** What a caller can check beforehand: solo keys only in a workspace without credentials, and
      activations only with the passphrase of the admin's key (or when they are refused outright). */
  predicate Careful(w: World, s: Step) {
    match s
    case Create(_, _, _, solo, _, _, _) => solo ==> w.v.creds == map[]
    case Activate(key, admin, passphrase, _, _) =>
      ActivationGuard(w.v, key, admin).None? ==>
        w.v.creds == map[] || passphrase == w.v.keys[First(ActiveKeys(w.v, admin)).value].privateKey.passphrase
    case _ => true
  }

  /** A key that was never approved holds nothing. */
  lemma UnapprovedHoldsNothing(w: World, c: nat, k: nat)
    requires Inv(w)
    requires k in w.v.keys ==> w.v.keys[k].approvedAt.None?
    ensures Slot(c, k) !in w.v.shares
  {
    assert Slot(c, k) in w.v.shares ==> Agrees(w.v, Slot(c, k));
  }

  /** An accepted activation, in terms of the shares before it. */
  lemma ActivationShares(w: World, s: Step)
    requires Inv(w) && Possible(w, s) && s.Activate? && ActivationGuard(w.v, s.key, s.admin).None?
    ensures var adminKey := First(ActiveKeys(w.v, s.admin)).value;
      var v1 := Next(w, s).v;
      && v1.keys == Approved(w.v, s.key, s.t).keys
      && v1.creds == w.v.creds
      && v1.shares.Keys == w.v.shares.Keys +
           (if s.adminPassphrase == w.v.keys[adminKey].privateKey.passphrase
            then Passed(w.v, s.order, s.key, adminKey) else {})
      && Inv(Next(w, s))
  {
    ApprovalKeepsInv(w, s.key, s.t);
    var w1 := World(Approved(w.v, s.key, s.t), w.texts, w.clock);
    ProvisionAgrees(w1, s.order, s.key, First(ActiveKeys(w.v, s.admin)).value, s.adminPassphrase);
  }

  lemma CarefulActivationHeld(w: World, s: Step)
    requires Inv(w) && AllHeld(w.v) && Possible(w, s) && s.Activate? && Careful(w, s)
    requires ActivationGuard(w.v, s.key, s.admin).None?
    ensures AllHeld(Next(w, s).v)
  {
    var adminKey := First(ActiveKeys(w.v, s.admin)).value;
    var v1 := Next(w, s).v;
    ActivationShares(w, s);
    forall k, c | k in v1.keys && v1.keys[k].Active() && c in v1.creds ensures Slot(c, k) in v1.shares {
      if k == s.key {
        assert w.v.keys[adminKey].Active() && c in w.v.creds && c in s.order;
        assert Slot(c, s.key) in Passed(w.v, s.order, s.key, adminKey);
      } else {
        assert w.v.keys[k].Active();
      }
    }
  }

  lemma CarelessActivationNotHeld(w: World, s: Step)
    requires Inv(w) && Possible(w, s) && s.Activate? && !Careful(w, s)
    ensures !AllHeld(Next(w, s).v)
  {
    var v1 := Next(w, s).v;
    ActivationShares(w, s);
    var c :| c in w.v.creds;
    UnapprovedHoldsNothing(w, c, s.key);
    assert v1.keys[s.key].Active() && c in v1.creds && Slot(c, s.key) !in v1.shares;
  }

  lemma ActivationHeld(w: World, s: Step)
    requires Inv(w) && AllHeld(w.v) && Possible(w, s) && s.Activate?
    ensures AllHeld(Next(w, s).v) <==> Careful(w, s)
  {
    if ActivationGuard(w.v, s.key, s.admin).None? {
      if Careful(w, s) { CarefulActivationHeld(w, s); } else { CarelessActivationNotHeld(w, s); }
    }
  }

  lemma CreateHeld(w: World, s: Step)
    requires Inv(w) && AllHeld(w.v) && Possible(w, s) && s.Create?
    ensures AllHeld(Next(w, s).v) <==> Careful(w, s)
  {
    var v1 := Next(w, s).v;
    if !Careful(w, s) {
      var c :| c in w.v.creds;
      UnapprovedHoldsNothing(w, c, s.id);
      assert v1.keys[s.id].Active();
    }
  }

  /** Confirming or revoking activates nobody, and storing serves every active key. */
  lemma OtherHeld(w: World, s: Step)
    requires Inv(w) && AllHeld(w.v) && Possible(w, s) && (s.Confirm? || s.Revoke? || s.Store?)
    ensures AllHeld(Next(w, s).v)
  {
    var v1 := Next(w, s).v;
    forall k, c | k in v1.keys && v1.keys[k].Active() && c in v1.creds ensures Slot(c, k) in v1.shares {
      assert KeyOk(w.v.keys[k]);
      assert w.v.keys[k].Active();
    }
  }

  /** From a covered state, a step keeps coverage if and only if it is careful. */
  lemma StepKeepsCoverage(w: World, s: Step)
    requires Inv(w) && Covered(w) && Possible(w, s)
    ensures Inv(Next(w, s))
    ensures Covered(Next(w, s)) <==> Careful(w, s)
  {
    StepKeepsInv(w, s);
    CoveredMeansHeld(w);
    CoveredMeansHeld(Next(w, s));
    if s.Activate? { ActivationHeld(w, s); }
    else if s.Create? { CreateHeld(w, s); }
    else { OtherHeld(w, s); }
  }

  ghost predicate AlwaysCovered(w: World, run: seq<Step>)
    requires Inv(w) && PossibleRun(w, run)
    decreases |run|
  {
    Covered(w) && (run != [] ==> (StepKeepsInv(w, run[0]); AlwaysCovered(Next(w, run[0]), run[1..])))
  }

  ghost predicate CarefulRun(w: World, run: seq<Step>)
    decreases |run|
  {
    run == [] || (Careful(w, run[0]) && CarefulRun(Next(w, run[0]), run[1..]))
  }

  lemma {:induction false} CoverageFrom(w: World, run: seq<Step>)
    requires Inv(w) && Covered(w) && PossibleRun(w, run)
    ensures AlwaysCovered(w, run) <==> CarefulRun(w, run)
    decreases |run|
  {
    if run != [] {
      StepKeepsCoverage(w, run[0]);
      if Covered(Next(w, run[0])) { CoverageFrom(Next(w, run[0]), run[1..]); }
    }
  }

  /** Full coverage: over every run of an empty workspace, every active key reads every credential as
      stored in all states of the run if and only if all its steps are careful. */
  lemma FullCoverage(run: seq<Step>)
    requires PossibleRun(EMPTY, run)
    ensures Inv(EMPTY)
    ensures AlwaysCovered(EMPTY, run) <==> CarefulRun(EMPTY, run)
  {
    CoverageFrom(EMPTY, run);
  }

  lemma {:induction false} EndsCovered(w: World, run: seq<Step>)
    requires Inv(w) && PossibleRun(w, run) && AlwaysCovered(w, run)
    ensures Inv(Run(w, run)) && Covered(Run(w, run))
    decreases |run|
  {
    if run != [] {
      StepKeepsInv(w, run[0]);
      EndsCovered(Next(w, run[0]), run[1..]);
    }
  }

  /** At the user's end: `get_credentials` with the passphrase of the user's key returns the stored text. */
  lemma UsersReadWhatWasStored(run: seq<Step>, user: nat, c: nat)
    requires PossibleRun(EMPTY, run) && CarefulRun(EMPTY, run)
    requires c in Run(EMPTY, run).v.creds && ActiveKeys(Run(EMPTY, run).v, user) != {}
    ensures var w := Run(EMPTY, run);
      && Inv(w)
      && GetCredentials(w.v, c, user, w.v.keys[First(ActiveKeys(w.v, user)).value].privateKey.passphrase)
        == Ok(w.texts[c])
  {
    FullCoverage(run);
    EndsCovered(EMPTY, run);
    var w := Run(EMPTY, run);
    var k := First(ActiveKeys(w.v, user)).value;
    assert KeyOk(w.v.keys[k]);
  }

  /** What was stored stays what is stored: no step changes the text of an existing credential. */
  lemma {:induction false} TextsStay(w: World, run: seq<Step>, c: nat)
    requires Inv(w) && PossibleRun(w, run) && c in w.texts
    ensures c in Run(w, run).texts && Run(w, run).texts[c] == w.texts[c]
    decreases |run|
  {
    if run != [] {
      StepKeepsInv(w, run[0]);
      TextsStay(Next(w, run[0]), run[1..], c);
    }
  }

  // ---------- Permanence ----------

  /** No active key holds a share of `c`. */
  ghost predicate Lost(v: Vault, c: nat) {
    c in v.creds && forall k | k in v.keys && v.keys[k].Active() :: Slot(c, k) !in v.shares
  }

  lemma ActivationKeepsLost(w: World, s: Step, c: nat)
    requires Inv(w) && Possible(w, s) && Lost(w.v, c) && s.Activate?
    ensures Lost(Next(w, s).v, c)
  {
    if ActivationGuard(w.v, s.key, s.admin).None? {
      var v1 := Next(w, s).v;
      ActivationShares(w, s);
      UnapprovedHoldsNothing(w, c, s.key);
      forall k | k in v1.keys && v1.keys[k].Active() ensures Slot(c, k) !in v1.shares {
        assert k != s.key ==> w.v.keys[k].Active();
      }
    }
  }

  lemma StepKeepsLost(w: World, s: Step, c: nat)
    requires Inv(w) && Possible(w, s) && Lost(w.v, c)
    ensures Lost(Next(w, s).v, c)
  {
    if s.Activate? {
      ActivationKeepsLost(w, s, c);
    } else {
      var v1 := Next(w, s).v;
      forall k | k in v1.keys && v1.keys[k].Active() ensures Slot(c, k) !in v1.shares {
        if s.Create? { UnapprovedHoldsNothing(w, c, s.id); }
        assert k in w.v.keys ==> KeyOk(w.v.keys[k]);
      }
    }
  }

  /** Permanence: once no active key holds a share, no continuation gives one to an active key. */
  lemma {:induction false} LostForever(w: World, run: seq<Step>, c: nat)
    requires Inv(w) && PossibleRun(w, run) && Lost(w.v, c)
    ensures Lost(Run(w, run).v, c)
    decreases |run|
  {
    if run != [] {
      StepKeepsLost(w, run[0], c);
      StepKeepsInv(w, run[0]);
      LostForever(Next(w, run[0]), run[1..], c);
    }
  }

  /** Losing a credential is observable: no user ever reads it again, whatever passphrase is given. */
  lemma NobodyReadsLost(w: World, run: seq<Step>, c: nat, user: nat, passphrase: string)
    requires Inv(w) && PossibleRun(w, run) && Lost(w.v, c)
    ensures c in Run(w, run).v.creds
    ensures GetCredentials(Run(w, run).v, c, user, passphrase).Err?
  {
    LostForever(w, run, c);
  }
}
