/**
 What an activation does to every reading of every credential when old-format shares are
 still about. The states here are arbitrary: shares of both formats, readable or not.
 */
module VaultLegacy {
  import opened Common
  import opened SymbolicCrypto
  import opened VaultModel

  /** DEKs are drawn fresh: no credential is sealed under one that is yet to be drawn. */
  ghost predicate Drawn(v: Vault) {
    forall c | c in v.creds && v.creds[c].data != [] && v.creds[c].data[0].Aead? :: v.creds[c].data[0].key < v.entropy
  }

  predicate OldFormat(v: Vault, s: Slot) { s in v.shares && !v.shares[s].NewFormat() }

  predicate NewFormat(v: Vault, s: Slot) { s in v.shares && v.shares[s].NewFormat() }

  /** The migration re-seals `c` while `k` keeps the DEK of the former sealing. */
  predicate LeavesBehind(v: Vault, c: nat, adminKey: nat, k: nat) {
    OldFormat(v, Slot(c, adminKey)) && NewFormat(v, Slot(c, k))
  }

  /** The new key reads `c` as the admin did: the same text, or the same refusal. */
  lemma OneTransfers(v: Vault, c: nat, newKey: nat, adminKey: nat, passphrase: string)
    requires newKey in v.keys && adminKey in v.keys && newKey != adminKey && c in v.creds
    requires v.keys[newKey].privateKey.pub == v.keys[newKey].publicKey
    requires Slot(c, adminKey) in v.shares && ProvisionOne(v, c, newKey, adminKey, passphrase).error.None?
    ensures ReadWithKey(ProvisionOne(v, c, newKey, adminKey, passphrase).v, c, newKey,
      v.keys[newKey].privateKey.passphrase)
         == ReadWithKey(v, c, adminKey, passphrase)
  {
    var o := ProvisionOne(v, c, newKey, adminKey, passphrase);
    var pem := v.keys[newKey].privateKey;
    var held := v.shares[Slot(c, adminKey)];
    var dek := if held.NewFormat() then Unwrap(held.encryptedKey, v.keys[adminKey].privateKey, passphrase).value
      else v.entropy;
    assert o.v.shares[Slot(c, newKey)].encryptedKey == RsaEncrypt(pem.pub, dek);
    assert |RsaEncrypt(pem.pub, dek)| == RSA_BLOCK;
    UnwrapWrap(pem.pub, dek, pem, pem.passphrase);
    if !held.NewFormat() {
      var text := DecryptWithPrivateKey(held.encryptedData, held.nonce, v.keys[adminKey].privateKey, passphrase).value;
      OpenSeal(dek, dek + 1, text, dek, dek + 1);
      assert |Seal(dek, dek + 1, text)| >= TAG;
    }
  }

  /** Another key's reading of `c` is unchanged, except that a key left behind can no longer open it. */
  lemma OneSpares(v: Vault, c: nat, newKey: nat, adminKey: nat, passphrase: string, k: nat, p: string)
    requires newKey in v.keys && adminKey in v.keys && k in v.keys && k != newKey && c in v.creds
    requires Drawn(v) && ProvisionOne(v, c, newKey, adminKey, passphrase).error.None?
    ensures var after := ReadWithKey(ProvisionOne(v, c, newKey, adminKey, passphrase).v, c, k, p);
      if LeavesBehind(v, c, adminKey, k) then ReadWithKey(v, c, k, p).Ok? ==> after == Err(Crypto(InvalidTag))
      else after == ReadWithKey(v, c, k, p)
  {
    if LeavesBehind(v, c, adminKey, k) && ReadWithKey(v, c, k, p).Ok? {
      var dek := Unwrap(v.shares[Slot(c, k)].encryptedKey, v.keys[k].privateKey, p).value;
      var data := v.creds[c].data;
      assert data[0].Aead? && data == Seal(dek, v.creds[c].nonce, data[0].text);
      assert data[0] == Aead(dek, v.creds[c].nonce, data[0].text, 0);
      var held := v.shares[Slot(c, adminKey)];
      var text := DecryptWithPrivateKey(held.encryptedData, held.nonce, v.keys[adminKey].privateKey, passphrase).value;
      OpenSeal(v.entropy, v.entropy + 1, text, dek, v.entropy + 1);
      assert |Seal(v.entropy, v.entropy + 1, text)| >= TAG;
    }
  }

  lemma OneKeepsDrawn(v: Vault, c: nat, newKey: nat, adminKey: nat, passphrase: string)
    requires newKey in v.keys && adminKey in v.keys && Drawn(v)
    ensures Drawn(ProvisionOne(v, c, newKey, adminKey, passphrase).v)
  {
    var v1 := ProvisionOne(v, c, newKey, adminKey, passphrase).v;
    if v1.creds != v.creds {
      assert v1.creds[c].data[0].key == v.entropy;
    }
  }

  /** One round touches one credential and one slot. */
  lemma OneFrames(v: Vault, c: nat, newKey: nat, adminKey: nat, passphrase: string)
    requires newKey in v.keys && adminKey in v.keys
    ensures var v1 := ProvisionOne(v, c, newKey, adminKey, passphrase).v;
      && v.creds.Keys <= v1.creds.Keys <= v.creds.Keys + {c}
      && (forall x | x in v.creds && x != c :: v1.creds[x] == v.creds[x])
      && (forall s: Slot | s != Slot(c, newKey) ::
        (s in v1.shares <==> s in v.shares) && (s in v.shares ==> v1.shares[s] == v.shares[s]))
  {
  }

  /** Provisioning touches the listed credentials and the slots of the new key only. */
  lemma {:induction false} AllFrames(v: Vault, order: seq<nat>, newKey: nat, adminKey: nat, passphrase: string)
    requires newKey in v.keys && adminKey in v.keys && Drawn(v)
    ensures var v1 := ProvisionAll(v, order, newKey, adminKey, passphrase).v;
      && Drawn(v1)
      && v.creds.Keys <= v1.creds.Keys
      && (forall c | c in v1.creds :: c in v.creds || c in order)
      && (forall c | c in v.creds && c !in order :: v1.creds[c] == v.creds[c])
      && (forall s: Slot | s.key != newKey || s.cred !in order ::
        (s in v1.shares <==> s in v.shares) && (s in v.shares ==> v1.shares[s] == v.shares[s]))
    decreases |order|
  {
    if order != [] {
      OneKeepsDrawn(v, order[0], newKey, adminKey, passphrase);
      OneFrames(v, order[0], newKey, adminKey, passphrase);
      assert order == [order[0]] + order[1..];
      var o := ProvisionOne(v, order[0], newKey, adminKey, passphrase);
      if o.error.None? { AllFrames(o.v, order[1..], newKey, adminKey, passphrase); }
    }
  }

  /** `v1` shows for `c` the same row and the same share of `k` as `v`. */
  predicate SameView(v: Vault, v1: Vault, c: nat, k: nat)
    requires c in v.creds && k in v.keys
  {
    && c in v1.creds && k in v1.keys && v1.creds[c] == v.creds[c] && v1.keys[k].privateKey == v.keys[k].privateKey
    && (Slot(c, k) in v1.shares <==> Slot(c, k) in v.shares)
    && (Slot(c, k) in v.shares ==> v1.shares[Slot(c, k)] == v.shares[Slot(c, k)])
  }

  lemma SameReading(v: Vault, v1: Vault, c: nat, k: nat, p: string)
    requires c in v.creds && k in v.keys && SameView(v, v1, c, k)
    ensures ReadWithKey(v1, c, k, p) == ReadWithKey(v, c, k, p)
    ensures OldFormat(v1, Slot(c, k)) == OldFormat(v, Slot(c, k))
      && NewFormat(v1, Slot(c, k)) == NewFormat(v, Slot(c, k))
  {
  }

  /** The effect of provisioning `c`, on the new key and on any other key `k`. */
  predicate Migrated(v: Vault, v1: Vault, c: nat, newKey: nat, adminKey: nat, passphrase: string, k: nat, p: string)
    requires newKey in v.keys && adminKey in v.keys && k in v.keys && c in v.creds
  {
    && newKey in v1.keys && k in v1.keys && c in v1.creds
    && (OldFormat(v, Slot(c, adminKey)) ==> ReadWithKey(v, c, adminKey, passphrase).Ok?)
    && (Slot(c, adminKey) in v.shares ==>
          ReadWithKey(v1, c, newKey, v.keys[newKey].privateKey.passphrase) == ReadWithKey(v, c, adminKey, passphrase))
    && (if LeavesBehind(v, c, adminKey, k) then ReadWithKey(v, c, k, p).Ok? ==>
      ReadWithKey(v1, c, k, p) == Err(Crypto(InvalidTag))
        else ReadWithKey(v1, c, k, p) == ReadWithKey(v, c, k, p))
  }

  lemma OneMigrates(v: Vault, c: nat, newKey: nat, adminKey: nat, passphrase: string, k: nat, p: string)
    requires newKey in v.keys && adminKey in v.keys && newKey != adminKey && k in v.keys && k != newKey && c in v.creds
    requires v.keys[newKey].privateKey.pub == v.keys[newKey].publicKey
    requires Drawn(v) && ProvisionOne(v, c, newKey, adminKey, passphrase).error.None?
    ensures Migrated(v, ProvisionOne(v, c, newKey, adminKey, passphrase).v, c, newKey, adminKey, passphrase, k, p)
  {
    OneSpares(v, c, newKey, adminKey, passphrase, k, p);
    if Slot(c, adminKey) in v.shares { OneTransfers(v, c, newKey, adminKey, passphrase); }
  }

  /** A completed pass over distinct credentials, seen from one of them. */
  lemma {:induction false} AllReadings(v: Vault, order: seq<nat>, newKey: nat, adminKey: nat, passphrase: string,
      c: nat, k: nat, p: string)
    requires newKey in v.keys && adminKey in v.keys && newKey != adminKey && k in v.keys && k != newKey
    requires v.keys[newKey].privateKey.pub == v.keys[newKey].publicKey
    requires Drawn(v) && (forall i, j | 0 <= i < j < |order| :: order[i] != order[j]) && c in order && c in v.creds
    requires ProvisionAll(v, order, newKey, adminKey, passphrase).error.None?
    ensures Migrated(v, ProvisionAll(v, order, newKey, adminKey, passphrase).v, c, newKey, adminKey, passphrase, k, p)
    decreases |order|
  {
    var one := ProvisionOne(v, order[0], newKey, adminKey, passphrase).v;
    var rest := order[1..];
    var last := ProvisionAll(one, rest, newKey, adminKey, passphrase).v;
    OneKeepsDrawn(v, order[0], newKey, adminKey, passphrase);
    if c == order[0] {
      assert c !in rest;
      OneMigrates(v, c, newKey, adminKey, passphrase, k, p);
      AllFrames(one, rest, newKey, adminKey, passphrase);
      SameReading(one, last, c, k, p);
      SameReading(one, last, c, newKey, v.keys[newKey].privateKey.passphrase);
    } else {
      assert c in rest by { assert order == [order[0]] + rest; }
      SameReading(v, one, c, k, p);
      SameReading(v, one, c, adminKey, passphrase);
      AllReadings(one, rest, newKey, adminKey, passphrase, c, k, p);
    }
  }

  /**
   Activation preserves meaning: after a completed activation the new key reads each credential of
   which the admin's key holds a share exactly as the admin read it, and every other key keeps its
   reading, except that a new-format holder loses a credential that was migrated from the admin's
   old-format share.
   */
  lemma ActivationReadings(v: Vault, key: nat, admin: nat, passphrase: string, t: int, order: seq<nat>, c: nat, k: nat,
      p: string)
    requires Drawn(v) && IsListing(order, v.creds.Keys) && c in v.creds && k in v.keys && k != key
    requires ActivateKey(v, key, admin, passphrase, t, order).error.None?
    requires v.keys[key].privateKey.pub == v.keys[key].publicKey
    ensures var v1 := ActivateKey(v, key, admin, passphrase, t, order).v;
      var adminKey := First(ActiveKeys(v, admin)).value;
      && Drawn(v1) && v1.creds.Keys == v.creds.Keys && v1.keys == Approved(v, key, t).keys
      && Migrated(v, v1, c, key, adminKey, passphrase, k, p)
      && (ReadWithKey(v, c, k, p).Ok? ==>
            (ReadWithKey(v1, c, k, p) == ReadWithKey(v, c, k, p) <==> !LeavesBehind(v, c, adminKey, k)))
  {
    var adminKey := First(ActiveKeys(v, admin)).value;
    var va := Approved(v, key, t);
    AllFrames(va, order, key, adminKey, passphrase);
    AllReadings(va, order, key, adminKey, passphrase, c, k, p);
    SameReading(v, va, c, k, p);
    SameReading(v, va, c, adminKey, passphrase);
  }

  /** The old-format share of another key is still old-format afterwards. */
  lemma ActivationKeepsFormat(v: Vault, key: nat, admin: nat, passphrase: string, t: int, order: seq<nat>, s: Slot)
    requires Drawn(v) && ActivateKey(v, key, admin, passphrase, t, order).error.None? && s.key != key
    ensures OldFormat(ActivateKey(v, key, admin, passphrase, t, order).v, s) == OldFormat(v, s)
  {
    AllFrames(Approved(v, key, t), order, key, First(ActiveKeys(v, admin)).value, passphrase);
  }

  /** A key provisioned through a share holds a new-format share. */
  lemma {:induction false} AllGiveNewFormat(v: Vault, order: seq<nat>, newKey: nat, adminKey: nat, passphrase: string,
      c: nat)
    requires newKey in v.keys && adminKey in v.keys && newKey != adminKey
    requires ProvisionAll(v, order, newKey, adminKey, passphrase).error.None?
    requires (c in order && Slot(c, adminKey) in v.shares) || NewFormat(v, Slot(c, newKey))
    ensures NewFormat(ProvisionAll(v, order, newKey, adminKey, passphrase).v, Slot(c, newKey))
    decreases |order|
  {
    if order != [] {
      assert order == [order[0]] + order[1..];
      var one := ProvisionOne(v, order[0], newKey, adminKey, passphrase).v;
      assert forall pub, dek :: |RsaEncrypt(pub, dek)| == RSA_BLOCK;
      AllGiveNewFormat(one, order[1..], newKey, adminKey, passphrase, c);
    }
  }

  lemma OthersStayActive(v: Vault, key: nat, admin: nat, passphrase: string, t: int, order: seq<nat>)
    requires key in v.keys && v.keys[key].user != admin
    ensures ActiveKeys(ActivateKey(v, key, admin, passphrase, t, order).v, admin) == ActiveKeys(v, admin)
  {
  }

  /** Two activations in a row through the same old-format share: the second costs the first key its reading. */
  lemma SecondMigrationBreaksFirst(v: Vault, k1: nat, k2: nat, admin: nat, passphrase: string, t1: int, t2: int,
      order: seq<nat>, c: nat)
    requires Drawn(v) && IsListing(order, v.creds.Keys) && c in v.creds && k1 in v.keys && k2 in v.keys && k1 != k2
    requires v.keys[k1].privateKey.pub == v.keys[k1].publicKey && v.keys[k1].user != admin
    requires v.keys[k2].privateKey.pub == v.keys[k2].publicKey && v.keys[k2].user != admin
    requires ActivateKey(v, k1, admin, passphrase, t1, order).error.None?
    requires ActivateKey(ActivateKey(v, k1, admin, passphrase, t1, order).v, k2, admin, passphrase, t2,
      order).error.None?
    requires OldFormat(v, Slot(c, First(ActiveKeys(v, admin)).value))
    ensures var v1 := ActivateKey(v, k1, admin, passphrase, t1, order).v;
      var v2 := ActivateKey(v1, k2, admin, passphrase, t2, order).v;
      var before := ReadWithKey(v, c, First(ActiveKeys(v, admin)).value, passphrase);
      && c in v1.creds && c in v2.creds && v2.keys.Keys == v1.keys.Keys == v.keys.Keys
      && before.Ok?
      && ReadWithKey(v1, c, k1, v.keys[k1].privateKey.passphrase) == before
      && ReadWithKey(v2, c, k2, v.keys[k2].privateKey.passphrase) == before
      && ReadWithKey(v2, c, k1, v.keys[k1].privateKey.passphrase) == Err(Crypto(InvalidTag))
  {
    var adminKey := First(ActiveKeys(v, admin)).value;
    var v1 := ActivateKey(v, k1, admin, passphrase, t1, order).v;
    ActivationReadings(v, k1, admin, passphrase, t1, order, c, adminKey, passphrase);
    ActivationKeepsFormat(v, k1, admin, passphrase, t1, order, Slot(c, adminKey));
    AllGiveNewFormat(Approved(v, k1, t1), order, k1, adminKey, passphrase, c);
    OthersStayActive(v, k1, admin, passphrase, t1, order);
    ActivationReadings(v1, k2, admin, passphrase, t2, order, c, k1, v.keys[k1].privateKey.passphrase);
  }

  /** An administrator with an old-format share of "pw", and two colleagues with confirmed keys. */
  function Office(): Vault {
    var pending := UserKey(1, 1, Pem(1, "b"), 0, Some(0), None, None);
    Vault(
      map[0 := UserKey(0, 0, Pem(0, "admin"), 0, Some(0), Some(0), None), 1 := pending,
          2 := pending.(user := 2, publicKey := 2, privateKey := Pem(2, "c"))],
      map[9 := Credential([], 0)],
      map[Slot(9, 0) := Share([], EncryptWithPublicKey("pw", 0, 5, 6), 6)],
      7)
  }

  lemma OfficeActivates()
    ensures var v := Office();
      && ActiveKeys(v, 0) == {0} && OldFormat(v, Slot(9, 0))
      && DecryptWithPrivateKey(v.shares[Slot(9, 0)].encryptedData, v.shares[Slot(9, 0)].nonce, v.keys[0].privateKey,
        "admin") == Ok("pw")
      && ActivateKey(v, 1, 0, "admin", 1, [9]).error.None?
      && ActivateKey(v, 1, 0, "admin", 1, [9]).v.shares[Slot(9, 0)] == v.shares[Slot(9, 0)]
  {
    var v := Office();
    HybridRoundTrip("pw", 0, 5, 6, 6, Pem(0, "admin"), "admin");
    assert ActiveKeys(v, 0) == {0};
    OldShareCompletes(Approved(v, 1, 1), 9, 1, 0, "admin");
  }

  lemma OfficeActivatesAgain()
    ensures var v1 := ActivateKey(Office(), 1, 0, "admin", 1, [9]).v;
      ActivateKey(v1, 2, 0, "admin", 2, [9]).error.None?
  {
    var v1 := ActivateKey(Office(), 1, 0, "admin", 1, [9]).v;
    OfficeActivates();
    OthersStayActive(Office(), 1, 0, "admin", 1, [9]);
    OldShareCompletes(Approved(v1, 2, 2), 9, 2, 0, "admin");
  }

  /** Such a run exists: two colleagues activated one after the other. */
  lemma SecondMigrationHappens()
    ensures var v := Office();
      var o1 := ActivateKey(v, 1, 0, "admin", 1, [9]);
      var o2 := ActivateKey(o1.v, 2, 0, "admin", 2, [9]);
      && Drawn(v) && o1.error.None? && o2.error.None?
      && 1 in o1.v.keys && 9 in o1.v.creds && 1 in o2.v.keys && 9 in o2.v.creds
      && ReadWithKey(o1.v, 9, 1, "b") == Ok("pw")
      && ReadWithKey(o2.v, 9, 1, "b") == Err(Crypto(InvalidTag))
  {
    OfficeActivates();
    OfficeActivatesAgain();
    SecondMigrationBreaksFirst(Office(), 1, 2, 0, "admin", 1, 2, [9], 9);
  }

  lemma OldShareCompletes(v: Vault, c: nat, newKey: nat, adminKey: nat, passphrase: string)
    requires newKey in v.keys && adminKey in v.keys && OldFormat(v, Slot(c, adminKey)) && newKey != adminKey
    requires DecryptWithPrivateKey(v.shares[Slot(c, adminKey)].encryptedData, v.shares[Slot(c, adminKey)].nonce,
      v.keys[adminKey].privateKey, passphrase).Ok?
    ensures ProvisionAll(v, [c], newKey, adminKey, passphrase).error.None?
    ensures var shares := ProvisionAll(v, [c], newKey, adminKey, passphrase).v.shares;
      Slot(c, adminKey) in shares && shares[Slot(c, adminKey)] == v.shares[Slot(c, adminKey)]
  {
    var one := ProvisionOne(v, c, newKey, adminKey, passphrase);
    assert [c][1..] == [];
    assert ProvisionAll(one.v, [], newKey, adminKey, passphrase) == Outcome(one.v, None);
  }
}
