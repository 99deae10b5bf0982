/** Which readings survive a whole run when shares of both formats are about, and activations may stop half way. */
module VaultReadings {
  import opened Common
  import opened SymbolicCrypto
  import opened VaultModel
  import opened VaultLegacy

  /** Provisioning passes `c` before it ends or stops at an error. */
  predicate GetsTo(v: Vault, order: seq<nat>, newKey: nat, adminKey: nat, passphrase: string, c: nat)
    requires newKey in v.keys && adminKey in v.keys
    decreases |order|
  {
    order != [] &&
    var o := ProvisionOne(v, order[0], newKey, adminKey, passphrase);
    o.error.None? && (order[0] == c || GetsTo(o.v, order[1..], newKey, adminKey, passphrase, c))
  }

  /** What provisioning, finished or not, leaves of the reading of `c` by another key. */
  predicate Spared(v: Vault, v1: Vault, gotTo: bool, c: nat, adminKey: nat, k: nat, p: string)
    requires c in v.creds && k in v.keys
  {
    && c in v1.creds && k in v1.keys
    && if gotTo && LeavesBehind(v, c, adminKey, k)
       then ReadWithKey(v, c, k, p).Ok? ==> ReadWithKey(v1, c, k, p).Err?
       else ReadWithKey(v1, c, k, p) == ReadWithKey(v, c, k, p)
  }

  /** The round of `c` itself; the rounds after it concern other credentials. */
  lemma OwnRound(v: Vault, order: seq<nat>, newKey: nat, adminKey: nat, passphrase: string, k: nat, p: string)
    requires newKey in v.keys && adminKey in v.keys && newKey != adminKey && k in v.keys && k != newKey && Drawn(v)
    requires order != [] && order[0] in v.creds && order[0] !in order[1..]
    requires ProvisionOne(v, order[0], newKey, adminKey, passphrase).error.None?
    ensures Spared(v, ProvisionAll(v, order, newKey, adminKey, passphrase).v, true, order[0], adminKey, k, p)
  {
    var one := ProvisionOne(v, order[0], newKey, adminKey, passphrase).v;
    var last := ProvisionAll(one, order[1..], newKey, adminKey, passphrase).v;
    OneSpares(v, order[0], newKey, adminKey, passphrase, k, p);
    OneKeepsDrawn(v, order[0], newKey, adminKey, passphrase);
    AllFrames(one, order[1..], newKey, adminKey, passphrase);
    SameReading(one, last, order[0], k, p);
  }

  lemma OtherRound(v: Vault, x: nat, newKey: nat, adminKey: nat, passphrase: string, c: nat, k: nat)
    requires newKey in v.keys && adminKey in v.keys && newKey != adminKey && k in v.keys && k != newKey && c in v.creds
    requires x != c
    ensures var one := ProvisionOne(v, x, newKey, adminKey, passphrase).v;
      SameView(v, one, c, k) && SameView(v, one, c, adminKey)
  {
  }

  /** Seen from one credential and one other key, provisioning costs a reading exactly if it gets there and leaves the
      key behind. */
  lemma {:induction false} PartialReadings(v: Vault, order: seq<nat>, newKey: nat, adminKey: nat, passphrase: string,
      c: nat, k: nat, p: string)
    requires newKey in v.keys && adminKey in v.keys && newKey != adminKey && k in v.keys && k != newKey && c in v.creds
    requires Drawn(v) && (forall i, j | 0 <= i < j < |order| :: order[i] != order[j])
    ensures Spared(v, ProvisionAll(v, order, newKey, adminKey, passphrase).v,
                   GetsTo(v, order, newKey, adminKey, passphrase, c), c, adminKey, k, p)
    decreases |order|
  {
    if order != [] {
      var o := ProvisionOne(v, order[0], newKey, adminKey, passphrase);
      if o.error.None? {
        if order[0] == c {
          OwnRound(v, order, newKey, adminKey, passphrase, k, p);
        } else {
          OneKeepsDrawn(v, order[0], newKey, adminKey, passphrase);
          OtherRound(v, order[0], newKey, adminKey, passphrase, c, k);
          SameReading(v, o.v, c, k, p);
          SameReading(v, o.v, c, adminKey, p);
          PartialReadings(o.v, order[1..], newKey, adminKey, passphrase, c, k, p);
        }
      }
    }
  }

  // ---------- Steps ----------

  /** An accepted activation through an old-format share of `c`, which `k` holds in the new format, gets to `c`. */
  predicate Strands(v: Vault, s: Step, c: nat, k: nat) {
    && s.Activate? && ActivationGuard(v, s.key, s.admin).None?
    && var adminKey := First(ActiveKeys(v, s.admin)).value;
       && LeavesBehind(v, c, adminKey, k)
       && GetsTo(Approved(v, s.key, s.t), s.order, s.key, adminKey, s.adminPassphrase, c)
  }

  /** A key once approved opens `c` to `text`. */
  predicate Reads(v: Vault, c: nat, k: nat, p: string, text: string) {
    c in v.creds && k in v.keys && v.keys[k].approvedAt.Some? && ReadWithKey(v, c, k, p) == Ok(text)
  }

  lemma ActivationStep(w: World, s: Step, c: nat, k: nat, p: string, text: string)
    requires Drawn(w.v) && Possible(w, s) && s.Activate? && Reads(w.v, c, k, p, text)
    ensures Drawn(Next(w, s).v)
    ensures Reads(Next(w, s).v, c, k, p, text) <==> !Strands(w.v, s, c, k)
  {
    if ActivationGuard(w.v, s.key, s.admin).None? {
      var adminKey := First(ActiveKeys(w.v, s.admin)).value;
      var va := Approved(w.v, s.key, s.t);
      SameReading(w.v, va, c, k, p);
      SameReading(w.v, va, c, adminKey, p);
      PartialReadings(va, s.order, s.key, adminKey, s.adminPassphrase, c, k, p);
      AllFrames(va, s.order, s.key, adminKey, s.adminPassphrase);
    }
  }

  lemma OtherStep(w: World, s: Step, c: nat, k: nat, p: string, text: string)
    requires Drawn(w.v) && Possible(w, s) && !s.Activate? && Reads(w.v, c, k, p, text)
    ensures Drawn(Next(w, s).v) && Reads(Next(w, s).v, c, k, p, text)
  {
    OtherStepKeepsView(w, s, c, k);
    SameReading(w.v, Next(w, s).v, c, k, p);
  }

  lemma OtherStepKeepsView(w: World, s: Step, c: nat, k: nat)
    requires Drawn(w.v) && Possible(w, s) && !s.Activate? && c in w.v.creds && k in w.v.keys
    requires w.v.keys[k].approvedAt.Some?
    ensures Drawn(Next(w, s).v) && SameView(w.v, Next(w, s).v, c, k) && Next(w, s).v.keys[k].approvedAt.Some?
  {
  }

  /** With his own passphrase the administrator opens every share he holds. */
  ghost predicate Sound(v: Vault, adminKey: nat)
    requires adminKey in v.keys
  {
    forall c | Slot(c, adminKey) in v.shares :: Opens(v, c, adminKey, v.keys[adminKey].privateKey.passphrase)
  }

  predicate Opens(v: Vault, c: nat, adminKey: nat, passphrase: string)
    requires adminKey in v.keys && Slot(c, adminKey) in v.shares
  {
    var held := v.shares[Slot(c, adminKey)];
    var pem := v.keys[adminKey].privateKey;
    if held.NewFormat() then Unwrap(held.encryptedKey, pem, passphrase).Ok?
    else DecryptWithPrivateKey(held.encryptedData, held.nonce, pem, passphrase).Ok?
  }

  lemma RoundKeepsSound(v: Vault, c: nat, newKey: nat, adminKey: nat, passphrase: string)
    requires newKey in v.keys && adminKey in v.keys && newKey != adminKey && Sound(v, adminKey)
    ensures var o := ProvisionOne(v, c, newKey, adminKey, passphrase);
      && o.v.keys == v.keys && Sound(o.v, adminKey)
      && (o.error.None? <==> Slot(c, adminKey) !in v.shares || Opens(v, c, adminKey, passphrase))
      && (forall x :: Slot(x, adminKey) in o.v.shares <==> Slot(x, adminKey) in v.shares)
  {
    var v1 := ProvisionOne(v, c, newKey, adminKey, passphrase).v;
    forall x | Slot(x, adminKey) in v1.shares ensures Opens(v1, x, adminKey, v.keys[adminKey].privateKey.passphrase) {
      assert Slot(x, adminKey) in v.shares && v1.shares[Slot(x, adminKey)] == v.shares[Slot(x, adminKey)];
      assert Opens(v, x, adminKey, v.keys[adminKey].privateKey.passphrase);
    }
  }

  lemma WrongPassphraseOpensNothing(v: Vault, c: nat, adminKey: nat, passphrase: string)
    requires adminKey in v.keys && Slot(c, adminKey) in v.shares && passphrase != v.keys[adminKey].privateKey.passphrase
    ensures !Opens(v, c, adminKey, passphrase)
  {
  }

  /** Where all his shares are sound, provisioning gets to a credential the administrator holds exactly with his
      passphrase. */
  lemma {:induction false} GetsToExactly(v: Vault, order: seq<nat>, newKey: nat, adminKey: nat, passphrase: string,
      c: nat)
    requires newKey in v.keys && adminKey in v.keys && newKey != adminKey && Sound(v, adminKey)
    requires c in order && Slot(c, adminKey) in v.shares
    ensures GetsTo(v, order, newKey, adminKey, passphrase, c) <==> passphrase == v.keys[adminKey].privateKey.passphrase
    decreases |order|
  {
    var o := ProvisionOne(v, order[0], newKey, adminKey, passphrase);
    assert order == [order[0]] + order[1..];
    RoundKeepsSound(v, order[0], newKey, adminKey, passphrase);
    if passphrase == v.keys[adminKey].privateKey.passphrase {
      assert Slot(order[0], adminKey) in v.shares ==> Opens(v, order[0], adminKey, passphrase);
    } else if Slot(order[0], adminKey) in v.shares {
      WrongPassphraseOpensNothing(v, order[0], adminKey, passphrase);
    }
    if o.error.None? && order[0] != c { GetsToExactly(o.v, order[1..], newKey, adminKey, passphrase, c); }
  }

  /** So an activation strands a reading exactly if it is accepted, the passphrase is right, and the administrator
      holds the credential in the old format while the key holds it in the new one. */
  lemma StrandsExactly(w: World, s: Step, c: nat, k: nat)
    requires Possible(w, s) && s.Activate? && c in w.v.creds && ActivationGuard(w.v, s.key, s.admin).None?
    requires Sound(w.v, First(ActiveKeys(w.v, s.admin)).value)
    ensures var adminKey := First(ActiveKeys(w.v, s.admin)).value;
      Strands(w.v, s, c, k) <==>
        LeavesBehind(w.v, c, adminKey, k) && s.adminPassphrase == w.v.keys[adminKey].privateKey.passphrase
  {
    var adminKey := First(ActiveKeys(w.v, s.admin)).value;
    var va := Approved(w.v, s.key, s.t);
    forall x | Slot(x, adminKey) in va.shares ensures Opens(va, x, adminKey, va.keys[adminKey].privateKey.passphrase) {
      assert Opens(w.v, x, adminKey, w.v.keys[adminKey].privateKey.passphrase);
    }
    if LeavesBehind(w.v, c, adminKey, k) { GetsToExactly(va, s.order, s.key, adminKey, s.adminPassphrase, c); }
  }

  // ---------- Runs ----------

  ghost predicate AlwaysReads(w: World, run: seq<Step>, c: nat, k: nat, p: string, text: string)
    decreases |run|
  {
    Reads(w.v, c, k, p, text) && (run != [] ==> AlwaysReads(Next(w, run[0]), run[1..], c, k, p, text))
  }

  ghost predicate NeverStrands(w: World, run: seq<Step>, c: nat, k: nat)
    decreases |run|
  {
    run != [] ==> !Strands(w.v, run[0], c, k) && NeverStrands(Next(w, run[0]), run[1..], c, k)
  }

  /**
   Over every run, from any state with shares of both formats, a key once approved keeps opening a credential to
   the same text in all states if and only if no activation strands it.
   */
  lemma {:induction false} ReadingsLast(w: World, run: seq<Step>, c: nat, k: nat, p: string, text: string)
    requires Drawn(w.v) && PossibleRun(w, run) && Reads(w.v, c, k, p, text)
    ensures AlwaysReads(w, run, c, k, p, text) <==> NeverStrands(w, run, c, k)
    decreases |run|
  {
    if run != [] {
      var w1 := Next(w, run[0]);
      if run[0].Activate? { ActivationStep(w, run[0], c, k, p, text); } else { OtherStep(w, run[0], c, k, p, text); }
      if Reads(w1.v, c, k, p, text) { ReadingsLast(w1, run[1..], c, k, p, text); }
    }
  }
}
