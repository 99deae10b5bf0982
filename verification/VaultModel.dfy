/**
 The tables of one vault workspace and what each key or credential operation does to them.
 Rows are kept in maps by primary key; random primary keys, clock readings, generated
 passphrases and the order in which an unordered query lists its rows are parameters.
 */
module VaultModel {
  import opened Common
  import opened SymbolicCrypto

  datatype UserKey = UserKey(
    user: nat,
    publicKey: nat,
    privateKey: Pem,
    createdAt: int,
    confirmedAt: Option<int>,
    approvedAt: Option<int>,
    revokedAt: Option<int>)
  {
    predicate Current() { confirmedAt.Some? && revokedAt.None? }

    predicate Active() { Current() && approvedAt.Some? }

    predicate Pending() { Current() && approvedAt.None? }
  }

  /** `encrypted_data` and `nonce`; no bytes stands for a null or empty column. */
  datatype Credential = Credential(data: seq<Byte>, nonce: nat)

  /** New format: `encrypted_key`. Old format: `encrypted_data` and `nonce`. */
  datatype Share = Share(encryptedKey: seq<Byte>, encryptedData: seq<Byte>, nonce: nat) {
    predicate NewFormat() { encryptedKey != [] }
  }

  datatype Slot = Slot(cred: nat, key: nat)

  datatype Error =
    | KeyNotFound
    | AlreadyApproved | NotConfirmed | Revoked | NoAdminKey
    | PassphraseRequired | NoValidKey | NoAccess | NoData
    | Crypto(error: CryptoError)

  datatype Vault = Vault(
    keys: map<nat, UserKey>,
    creds: map<nat, Credential>,
    shares: map<Slot, Share>,
    entropy: nat)

  /** The tables after a call, and the exception it raised, if any. */
  datatype Outcome = Outcome(v: Vault, error: Option<Error>)

  // ---------- Selection queries ----------

  function ActiveKeys(v: Vault, user: nat): set<nat> {
    set k | k in v.keys && v.keys[k].user == user && v.keys[k].Active()
  }

  function PendingKeys(v: Vault, user: nat): set<nat> {
    set k | k in v.keys && v.keys[k].user == user && v.keys[k].Pending()
  }

  function CurrentKeys(v: Vault, user: nat): set<nat> {
    set k | k in v.keys && v.keys[k].user == user && v.keys[k].Current()
  }

  function Stamp(t: Option<int>): int { if t.Some? then t.value else 0 }

  function GetActiveKey(v: Vault, user: nat): Option<nat> {
    MostRecent(ActiveKeys(v, user), map k | k in v.keys :: Stamp(v.keys[k].approvedAt))
  }

  function GetPendingKey(v: Vault, user: nat): Option<nat> {
    MostRecent(PendingKeys(v, user), map k | k in v.keys :: Stamp(v.keys[k].confirmedAt))
  }

  function GetCurrentKey(v: Vault, user: nat): Option<nat> {
    MostRecent(CurrentKeys(v, user), map k | k in v.keys :: Stamp(v.keys[k].confirmedAt))
  }

  // ---------- Key lifecycle ----------

  function Created(v: Vault, id: nat, user: nat, passphrase: string, solo: bool, tConfirm: int, tApprove: int,
      tCreate: int): Vault {
    var key := UserKey(user, v.entropy, Pem(v.entropy, passphrase), tCreate,
      if solo then Some(tConfirm) else None, if solo then Some(tApprove) else None, None);
    v.(keys := v.keys[id := key], entropy := v.entropy + 1)
  }

  /** The bulk update and the save of `confirm_key`. */
  function Confirmed(v: Vault, key: nat, t: int): Vault
    requires key in v.keys
  {
    v.(keys := map k | k in v.keys ::
      if k == key then v.keys[k].(confirmedAt := Some(t))
      else if v.keys[k].user == v.keys[key].user && v.keys[k].revokedAt.None? then v.keys[k].(revokedAt := Some(t))
      else v.keys[k])
  }

  function ConfirmKey(v: Vault, key: nat, t: int): Outcome {
    if key !in v.keys then Outcome(v, Some(KeyNotFound))
    else if v.keys[key].confirmedAt.Some? then Outcome(v, None)
    else if v.keys[key].revokedAt.Some? then Outcome(v, Some(Revoked))
    else Outcome(Confirmed(v, key, t), None)
  }

  function RevokeKey(v: Vault, key: nat, t: int): Outcome {
    if key !in v.keys then Outcome(v, Some(KeyNotFound))
    else if v.keys[key].revokedAt.Some? then Outcome(v, None)
    else Outcome(v.(keys := v.keys[key := v.keys[key].(revokedAt := Some(t))]), None)
  }

  // ---------- Activation ----------

  /** `update_or_create` of a share: an existing row keeps its old-format columns. */
  function PutWrapped(shares: map<Slot, Share>, slot: Slot, wrapped: seq<Byte>): map<Slot, Share> {
    shares[slot := if slot in shares then shares[slot].(encryptedKey := wrapped) else Share(wrapped, [], 0)]
  }

  /** One round of the loop in `_provision_credentials_for_key`. */
  function ProvisionOne(v: Vault, c: nat, newKey: nat, adminKey: nat, passphrase: string): Outcome
    requires newKey in v.keys && adminKey in v.keys
  {
    if Slot(c, adminKey) !in v.shares then Outcome(v, None) else
    var held := v.shares[Slot(c, adminKey)];
    var pem := v.keys[adminKey].privateKey;
    var pub := v.keys[newKey].publicKey;
    if held.NewFormat() then
      match Unwrap(held.encryptedKey, pem, passphrase)
      case Err(e) => Outcome(v, Some(Crypto(e)))
      case Ok(dek) => Outcome(v.(shares := PutWrapped(v.shares, Slot(c, newKey), RsaEncrypt(pub, dek))), None)
    else
      match DecryptWithPrivateKey(held.encryptedData, held.nonce, pem, passphrase)
      case Err(e) => Outcome(v, Some(Crypto(e)))
      case Ok(text) => Outcome(v.(
        creds := v.creds[c := Credential(Seal(v.entropy, v.entropy + 1, text), v.entropy + 1)],
        shares := PutWrapped(v.shares, Slot(c, newKey), RsaEncrypt(pub, v.entropy)),
        entropy := v.entropy + 2), None)
  }

  /** The loop over the listed credentials; an exception leaves the rounds before it saved. */
  function ProvisionAll(v: Vault, order: seq<nat>, newKey: nat, adminKey: nat, passphrase: string): (o: Outcome)
    requires newKey in v.keys && adminKey in v.keys
    ensures o.v.keys == v.keys
    decreases |order|
  {
    if order == [] then Outcome(v, None) else
    var o := ProvisionOne(v, order[0], newKey, adminKey, passphrase);
    if o.error.Some? then o else ProvisionAll(o.v, order[1..], newKey, adminKey, passphrase)
  }

  function ActivationGuard(v: Vault, key: nat, admin: nat): Option<Error> {
    if key !in v.keys then Some(KeyNotFound)
    else if v.keys[key].approvedAt.Some? then Some(AlreadyApproved)
    else if v.keys[key].confirmedAt.None? then Some(NotConfirmed)
    else if v.keys[key].revokedAt.Some? then Some(Revoked)
    else if First(ActiveKeys(v, admin)).None? then Some(NoAdminKey)
    else None
  }

  function Approved(v: Vault, key: nat, t: int): Vault
    requires key in v.keys
  {
    v.(keys := v.keys[key := v.keys[key].(approvedAt := Some(t))])
  }

  /** The approval is saved first and is not undone when provisioning fails. */
  function ActivateKey(v: Vault, key: nat, admin: nat, passphrase: string, t: int, order: seq<nat>): Outcome {
    var refused := ActivationGuard(v, key, admin);
    if refused.Some? then Outcome(v, refused)
    else ProvisionAll(Approved(v, key, t), order, key, First(ActiveKeys(v, admin)).value, passphrase)
  }

  // ---------- Credentials ----------

  function ValidKeys(v: Vault): set<nat> {
    set k | k in v.keys && v.keys[k].Active()
  }

  function SharesFor(v: Vault, id: nat, keys: set<nat>, dek: nat): map<Slot, Share>
    requires keys <= v.keys.Keys
  {
    map k | k in keys :: Slot(id, k) := Share(RsaEncrypt(v.keys[k].publicKey, dek), [], 0)
  }

  /** In vault mode the passphrase must be given but is not used. */
  function SetCredentials(v: Vault, id: nat, text: string, passphrase: string): Outcome {
    if passphrase == "" then Outcome(v, Some(PassphraseRequired))
    else Outcome(v.(
      creds := v.creds[id := Credential(Seal(v.entropy, v.entropy + 1, text), v.entropy + 1)],
      shares := v.shares + SharesFor(v, id, ValidKeys(v), v.entropy),
      entropy := v.entropy + 2), None)
  }

  /** What `get_credentials` returns once it has chosen the user's key. */
  function ReadWithKey(v: Vault, c: nat, k: nat, passphrase: string): Result<string, Error>
    requires c in v.creds && k in v.keys
  {
    if Slot(c, k) !in v.shares then Err(NoAccess) else
    var held := v.shares[Slot(c, k)];
    var pem := v.keys[k].privateKey;
    if held.NewFormat() then
      if v.creds[c].data == [] then Err(NoData) else
      match Unwrap(held.encryptedKey, pem, passphrase)
      case Err(e) => Err(Crypto(e))
      case Ok(dek) => Lift(Open(dek, v.creds[c].nonce, v.creds[c].data))
    else
      Lift(DecryptWithPrivateKey(held.encryptedData, held.nonce, pem, passphrase))
  }

  function Lift(r: Result<string, CryptoError>): Result<string, Error> {
    match r case Ok(text) => Ok(text) case Err(e) => Err(Crypto(e))
  }

  function GetCredentials(v: Vault, c: nat, user: nat, passphrase: string): Result<string, Error>
    requires c in v.creds
  {
    if passphrase == "" then Err(PassphraseRequired) else
    match First(ActiveKeys(v, user))
    case None => Err(NoValidKey)
    case Some(k) => ReadWithKey(v, c, k, passphrase)
  }

  // ---------- Steps and runs ----------

  datatype Step =
    | Create(id: nat, user: nat, passphrase: string, solo: bool, tConfirm: int, tApprove: int, tCreate: int)
    | Confirm(key: nat, t: int)
    | Activate(key: nat, admin: nat, adminPassphrase: string, t: int, order: seq<nat>)
    | Revoke(key: nat, t: int)
    | Store(cred: nat, text: string, storePassphrase: string)

  function Apply(v: Vault, s: Step): Outcome {
    match s
    case Create(id, user, passphrase, solo, t0, t1, t2) => Outcome(Created(v, id, user, passphrase, solo, t0, t1, t2),
      None)
    case Confirm(key, t) => ConfirmKey(v, key, t)
    case Activate(key, admin, passphrase, t, order) => ActivateKey(v, key, admin, passphrase, t, order)
    case Revoke(key, t) => RevokeKey(v, key, t)
    case Store(cred, text, passphrase) => SetCredentials(v, cred, text, passphrase)
  }

  /** The tables, with the text stored in each credential and the last clock reading. */
  datatype World = World(v: Vault, texts: map<nat, string>, clock: int)

  const EMPTY := World(Vault(map[], map[], map[], 0), map[], 0)

  function Next(w: World, s: Step): World {
    World(
      Apply(w.v, s).v,
      if s.Store? && s.storePassphrase != "" then w.texts[s.cred := s.text] else w.texts,
      match s
      case Create(_, _, _, _, _, _, t) => t
      case Confirm(_, t) => t
      case Activate(_, _, _, t, _) => t
      case Revoke(_, t) => t
      case Store(_, _, _) => w.clock)
  }

  /** New rows get unused primary keys, listings are complete and the clock does not run backwards. */
  ghost predicate Possible(w: World, s: Step) {
    match s
    case Create(id, _, passphrase, _, t0, t1, t2) => id !in w.v.keys && passphrase != "" && w.clock <= t0 <= t1 <= t2
    case Confirm(_, t) => w.clock <= t
    case Activate(_, _, _, t, order) => w.clock <= t && IsListing(order, w.v.creds.Keys)
    case Revoke(_, t) => w.clock <= t
    case Store(cred, _, _) => cred !in w.v.creds
  }

  function Run(w: World, run: seq<Step>): World
    decreases |run|
  {
    if run == [] then w else Run(Next(w, run[0]), run[1..])
  }

  ghost predicate PossibleRun(w: World, run: seq<Step>)
    decreases |run|
  {
    run == [] || (Possible(w, run[0]) && PossibleRun(Next(w, run[0]), run[1..]))
  }
}
