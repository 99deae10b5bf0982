/** The key service and the credential helpers as they run: methods that update the tables in place. */
module VaultService {
  import opened Common
  import opened SymbolicCrypto
  import VaultModel
  import opened VM = VaultModel

  lemma OneMoreShare(v: Vault, shares: map<Slot, Share>, id: nat, done: set<nat>, k: nat, dek: nat)
    requires done <= v.keys.Keys && k in v.keys
    ensures (shares + SharesFor(v, id, done, dek))[Slot(id, k) := Share(RsaEncrypt(v.keys[k].publicKey, dek), [], 0)]
         == shares + SharesFor(v, id, done + {k}, dek)
  {
  }

  class Service {
    var keys: map<nat, UserKey>
    var creds: map<nat, Credential>
    var shares: map<Slot, Share>
    var entropy: nat

    /** The tables as one value. */
    ghost function View(): Vault
      reads this
    {
      Vault(keys, creds, shares, entropy)
    }

    constructor ()
      ensures View() == EMPTY.v
    {
      keys, creds, shares, entropy := map[], map[], map[], 0;
    }

    method CreateKey(id: nat, user: nat, passphrase: string, solo: bool, tConfirm: int, tApprove: int, tCreate: int)
      requires id !in keys
      modifies this
      ensures View() == Created(old(View()), id, user, passphrase, solo, tConfirm, tApprove, tCreate)
    {
      var pub := entropy;
      entropy := entropy + 1;
      var confirmedAt, approvedAt := None, None;
      if solo {
        confirmedAt, approvedAt := Some(tConfirm), Some(tApprove);
      }
      keys := keys[id := UserKey(user, pub, Pem(pub, passphrase), tCreate, confirmedAt, approvedAt, None)];
    }

    /** The result says whether the administrators are to be notified. */
    method ConfirmKey(key: nat, t: int) returns (r: Result<bool, Error>)
      modifies this
      ensures View() == VaultModel.ConfirmKey(old(View()), key, t).v
      ensures r == match VaultModel.ConfirmKey(old(View()), key, t).error
                   case Some(e) => Err(e)
                   case None => Ok(key in keys && keys[key].approvedAt.None?)
    {
      if key !in keys { return Err(KeyNotFound); }
      if keys[key].confirmedAt.Some? { return Ok(keys[key].approvedAt.None?); }
      if keys[key].revokedAt.Some? { return Err(Revoked); }
      var user := keys[key].user;
      keys := map k | k in keys ::
        if keys[k].user == user && keys[k].revokedAt.None? && k != key then keys[k].(revokedAt := Some(t)) else keys[k];
      keys := keys[key := keys[key].(confirmedAt := Some(t))];
      assert keys == Confirmed(old(View()), key, t).keys;
      return Ok(keys[key].approvedAt.None?);
    }

    method RevokeKey(key: nat, t: int) returns (error: Option<Error>)
      modifies this
      ensures Outcome(View(), error) == VaultModel.RevokeKey(old(View()), key, t)
    {
      if key !in keys { return Some(KeyNotFound); }
      if keys[key].revokedAt.Some? { return None; }
      keys := keys[key := keys[key].(revokedAt := Some(t))];
      return None;
    }

    method ActivateKey(key: nat, admin: nat, passphrase: string, t: int, order: seq<nat>) returns (error: Option<Error>)
      modifies this
      ensures Outcome(View(), error) == VaultModel.ActivateKey(old(View()), key, admin, passphrase, t, order)
    {
      if key !in keys { return Some(KeyNotFound); }
      if keys[key].approvedAt.Some? { return Some(AlreadyApproved); }
      if keys[key].confirmedAt.None? { return Some(NotConfirmed); }
      if keys[key].revokedAt.Some? { return Some(Revoked); }
      var active := set k | k in keys && keys[k].user == admin && keys[k].Active();
      assert active == ActiveKeys(View(), admin);
      var adminKey := First(active);
      if adminKey.None? { return Some(NoAdminKey); }
      keys := keys[key := keys[key].(approvedAt := Some(t))];
      error := ProvisionCredentialsForKey(key, adminKey.value, passphrase, order);
    }

    method ProvisionCredentialsForKey(newKey: nat, adminKey: nat, passphrase: string,
        order: seq<nat>) returns (error: Option<Error>)
      requires newKey in keys && adminKey in keys
      modifies this
      ensures Outcome(View(), error) == ProvisionAll(old(View()), order, newKey, adminKey, passphrase)
    {
      var pem, pub := keys[adminKey].privateKey, keys[newKey].publicKey;
      var i := 0;
      while i < |order|
        invariant 0 <= i <= |order| && keys == old(keys)
        invariant ProvisionAll(View(), order[i..], newKey, adminKey, passphrase)
          == ProvisionAll(old(View()), order, newKey, adminKey, passphrase)
      {
        var c := order[i];
        assert order[i..][0] == c && order[i..][1..] == order[i + 1..];
        if Slot(c, adminKey) in shares {
          var held := shares[Slot(c, adminKey)];
          if held.NewFormat() {
            var dek := Unwrap(held.encryptedKey, pem, passphrase);
            if dek.Err? { return Some(Crypto(dek.error)); }
            shares := PutWrapped(shares, Slot(c, newKey), RsaEncrypt(pub, dek.value));
          } else {
            var text := DecryptWithPrivateKey(held.encryptedData, held.nonce, pem, passphrase);
            if text.Err? { return Some(Crypto(text.error)); }
            var dek, nonce := entropy, entropy + 1;
            entropy := entropy + 2;
            creds := creds[c := Credential(Seal(dek, nonce, text.value), nonce)];
            shares := PutWrapped(shares, Slot(c, newKey), RsaEncrypt(pub, dek));
          }
        }
        i := i + 1;
      }
      error := None;
    }

    /** `_set_credentials_vault_mode`, with the passphrase test of its callers. */
    method SetCredentials(id: nat, text: string, passphrase: string) returns (error: Option<Error>)
      requires id !in creds
      modifies this
      ensures Outcome(View(), error) == VaultModel.SetCredentials(old(View()), id, text, passphrase)
    {
      if passphrase == "" { return Some(PassphraseRequired); }
      var dek, nonce := entropy, entropy + 1;
      entropy := entropy + 2;
      creds := creds[id := Credential(Seal(dek, nonce, text), nonce)];
      var todo := set k | k in keys && keys[k].Active();
      ghost var before, done := old(View()), {};
      assert todo == ValidKeys(before);
      while todo != {}
        invariant todo + done == ValidKeys(before) && keys == before.keys
        invariant creds == before.creds[id := Credential(Seal(dek, nonce, text), nonce)]
          && entropy == before.entropy + 2
        invariant shares == before.shares + SharesFor(before, id, done, dek)
      {
        var k :| k in todo;
        shares := shares[Slot(id, k) := Share(RsaEncrypt(keys[k].publicKey, dek), [], 0)];
        OneMoreShare(before, before.shares, id, done, k, dek);
        todo, done := todo - {k}, done + {k};
      }
      assert done == ValidKeys(before);
      error := None;
    }

    method GetCredentials(c: nat, user: nat, passphrase: string) returns (r: Result<string, Error>)
      requires c in creds
      ensures r == VaultModel.GetCredentials(View(), c, user, passphrase)
    {
      if passphrase == "" { return Err(PassphraseRequired); }
      var active := set k | k in keys && keys[k].user == user && keys[k].Active();
      assert active == ActiveKeys(View(), user);
      var userKey := First(active);
      if userKey.None? { return Err(NoValidKey); }
      var k := userKey.value;
      if Slot(c, k) !in shares { return Err(NoAccess); }
      var held := shares[Slot(c, k)];
      if held.NewFormat() {
        if creds[c].data == [] { return Err(NoData); }
        var dek := Unwrap(held.encryptedKey, keys[k].privateKey, passphrase);
        if dek.Err? { return Err(Crypto(dek.error)); }
        r := Lift(Open(dek.value, creds[c].nonce, creds[c].data));
      } else {
        r := Lift(DecryptWithPrivateKey(held.encryptedData, held.nonce, keys[k].privateKey, passphrase));
      }
    }
  }
}
