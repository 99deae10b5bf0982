# Verification of the VaultSQL cores

A Dafny model of the stateful parts of VaultSQL, with proofs of what they promise over whole runs. Each
component has a model of its operations as functions on values, runs of those operations, theorems about every
run, and, where the program changes things in place, a class whose methods have the program's branches and loops
and are proved equal to the functions.

`dafny verify dfyconfig.toml` checks the project.

## Components

**Vault keys and envelope encryption** (`SymbolicCrypto`, `VaultModel`, `VaultRuns`, `VaultKeys`, `VaultLegacy`,
`VaultReadings`, `VaultOutcomes`, `VaultService`). A credential is sealed once under a data-encryption key (DEK) and
the DEK is wrapped once for each active key. Ciphertext bytes remember the operation that made them, so that a block
opens only under its own key (RSA-OAEP, section 7.1 of RFC 8017; ChaCha20-Poly1305, section 2.8 of RFC 8439); DEKs,
key pairs and nonces come from one counter. A run is any sequence of key creations, confirmations, activations,
revocations and stored credentials, each of which may fail. The code does not always keep every active key able to
read everything: approving a key is saved before its shares are made, and no transaction undoes it, so a wrong
administrator passphrase leaves an approved key without shares; and a solo administrator's key is born active without
shares. `FullCoverage` says that these are the only two ways to lose coverage. Old-format shares are the subject of
`VaultLegacy`: the activation that migrates one re-seals the credential and gives no new share to the other new-format
holders, so exactly those lose it, and `VaultReadings` says so over whole runs.

**SSH tunnel pool and SQL connection pool** (`TunnelKeys`, `TunnelModel`, `TunnelPools`, `ConnectionModel`,
`ConnectionPools`). Each critical section is one step, and any number of goroutines interleave between their sections;
a dial or a ping is a parameter. Two facts are worth knowing: a lookup closes the expired tunnel of its key even when
it is leased, and the stale path of the connection pool unmaps whatever is under the key by then, so that a fresh
handle may stay open without being mapped. The theorems say exactly when, and witness runs show that it happens. The
key of a tunnel joins its parts by separators that the parts may contain; `KeyIsOwnExactly` says which requests share
their key with another one, and `FitsExactly` that these, and only these, can be given a tunnel to another endpoint.

**Worksheet history** (`VersionModel`, `VersionRuns`, `VersionHistory`). The comment on the fallback of the culling
says that it keeps more recent versions; the slice removes the newest versions outside the kept ones. The model
follows the code.

**SQL export** (`SqlPrinter`, `SqlReader`, `SqlRoundTrip`, `SqlExport`, `Decimal`). The reader follows sections 5.2
and 5.3 of ISO/IEC 9075-2. A delimited identifier there is not empty, while the printer also prints `""` for an empty
name, so the round trip holds if and only if nothing is printed or no name is empty.

**Access records** (`AccessModel`, `AccessService`), **membership and sessions** (`MembershipModel`, `MembershipRuns`,
`MembershipSessions`, `Membership`) and **login codes** (`LoginCodeModel`, `LoginCodeRuns`, `LoginCodes`). Each
endpoint is one step, and clock readings are parameters that do not run backwards (membership does not even need
that). Three results may surprise: any unrevoked record, pending, denied or expired, stands in the way of an
administrator's grant, and an expired one also in the way of a new request; an identity whose stored address has
capital letters in its domain or white space around it can neither create nor join a workspace, because the user would
be made for another identity (an empty address is refused outright); and two live login codes with the same digits
block each other.

Timestamps are integers in seconds. Rows live in maps by primary key, and a query is a filter. `Common.First` is
Django's `first()` without an ordering, which orders by primary key.

## Model

| member | source | states |
|---|---|---|
| SymbolicCrypto.UnwrapWrap | api/connection/utils.py:271-337 | A wrapped DEK unwraps under the matching private key and its passphrase only, and says which of the two was wrong |
| SymbolicCrypto.OpenSeal | api/connection/utils.py:340-383 | A sealed text opens exactly under its own key and nonce |
| SymbolicCrypto.HybridRoundTrip | api/connection/crypto.py:109-217 | The 512-byte framing of the old format is undone by decryption if and only if key, passphrase and nonce are the right ones |
| VaultRuns.ProvisionOneAgrees | api/connection/utils.py:488-523 | One round of provisioning: no share to pass on, a stop at the wrong passphrase, or one more share that wraps the credential's DEK |
| VaultRuns.ProvisionAgrees | api/connection/utils.py:468-523 | The whole loop, in any listing order: all of the administrator's shares are passed on, or with a wrong passphrase none, and it fails exactly if there was one to pass on |
| VaultRuns.StepKeepsInv | api/connection/utils.py:386-523 | Share agreement: every set, activate, confirm, revoke and create step, failed ones included, keeps that all shares of a credential, of active and revoked keys, wrap the one DEK that seals it and are held by keys once approved |
| VaultRuns.RunKeepsInv | api/connection/key_service.py:163-295 | The same for every run |
| VaultRuns.UnapprovedHoldsNothing | api/connection/utils.py:164-181 | Provenance: a key that was never approved holds no share of anything |
| VaultRuns.ReadsWhatItHolds | api/connection/utils.py:218-246 | A key reads a credential, to the text that was stored, exactly when it holds a share; otherwise access is refused |
| VaultRuns.ActivationShares | api/connection/utils.py:140-181 | An accepted activation approves the key whatever the passphrase, changes no credential, and adds exactly the administrator's shares if the passphrase is right and nothing otherwise |
| VaultRuns.StepKeepsCoverage | api/connection/key_service.py:205-295 | From a state where every active key reads every credential, a step keeps this if and only if it is neither a solo creation beside existing credentials nor an accepted activation with a wrong passphrase |
| VaultRuns.CoverageFrom | api/connection/utils.py:140-266 | The same equivalence over every run from such a state |
| VaultRuns.FullCoverage | api/connection/utils.py:140-266 | Over every run of an empty workspace, every active key reads every credential as stored in all states of the run if and only if all steps are careful |
| VaultRuns.UsersReadWhatWasStored | api/connection/utils.py:184-266 | After a careful run, what the credential query returns to a user with an active key and its passphrase is the stored text |
| VaultRuns.TextsStay | api/connection/utils.py:405-446 | No continuation changes the text of a stored credential |
| VaultRuns.LostForever | api/connection/utils.py:486-523 | Permanence: once no active key holds a share of a credential, no continuation gives one to an active key |
| VaultRuns.NobodyReadsLost | api/connection/utils.py:207-254 | From then on every user's read fails, with any passphrase |
| VaultOutcomes.QueryAnswer | api/connection/utils.py:207-254 | What the credential query answers any user with any passphrase, where shares agree: an error without a passphrase, a valid key or a share; otherwise the stored text for the passphrase of the chosen key (of the valid ones the one with the least primary key) and the wrong-passphrase error for any other |
| VaultOutcomes.OnlyOwnPassphraseOpens | api/connection/utils.py:207-254 | In any state, old shares included, only the passphrase of the chosen key gets an answer, and only through a share of that key |
| VaultOutcomes.OldShareAnswer | api/connection/utils.py:247-254 | The answer through a share of the old format: the text it was made from for the right passphrase, the wrong-passphrase error for any other |
| VaultOutcomes.StoreOutcome | api/connection/utils.py:386-446 | Storing gives a share of the new credential to exactly the valid keys and changes nothing else; their owners read the text with their own passphrase only |
| VaultOutcomes.ActivationRefused | api/connection/key_service.py:271-279 | When an activation is refused, with the first reason in the order of the checks, and that nothing changes then |
| VaultOutcomes.ActivationOutcome | api/connection/utils.py:140-181 | Exactly when an activation is accepted, and what it leaves: approval for any passphrase, a share of everything the administrator's chosen key holds for the right one, and for a wrong one an error exactly if there was something to pass on |
| VaultOutcomes.ActivatedReads | api/connection/utils.py:178-181 | After an activation with the right passphrase the owner reads what the administrator's key held, with his own passphrase only |
| VaultOutcomes.RevokeOutcome | api/connection/key_service.py:281-295 | A revocation succeeds for every existing key, stamps it unless it was revoked before, and touches no other row |
| VaultOutcomes.RevokedForever | api/connection/key_service.py:281-295 | In no continuation of a revocation does its stamp change, is the key valid, or does any query answer through it |
| VaultOutcomes.CreatedKeyReads | api/connection/key_service.py:163-209 | Over every run: at any time at which the owner's query chooses the created key, what it holds a share of is read with the passphrase shown at creation and no other |
| VaultOutcomes.CreatedKeyReadsAll | api/connection/key_service.py:163-209 | After a careful run that holds for every credential |
| VaultKeys.ConfirmLeavesOneKey | api/connection/key_service.py:211-250 | When a confirmation fails, and with which error; when it changes something, and then exactly what: this key's stamp, and the revocation of the user's other unrevoked keys at the same instant |
| VaultKeys.StepKeepsOneCurrent | api/connection/key_service.py:163-250 | At most one confirmed unrevoked key per user survives a step if and only if the step is not a solo creation for a user who has one |
| VaultKeys.RunKeepsOneCurrent | api/connection/key_service.py:163-295 | Over every run uniqueness holds in all states if and only if there is no such creation |
| VaultKeys.LookupsAgree | api/connection/key_service.py:30-96 | Then the current, active and pending lookups and the unordered first rows name the same key |
| VaultKeys.AnyRowIsCurrentExactly | api/connection/key_service.py:75-96 | Any confirmed unrevoked key of any user is the one the service calls current if and only if these are unique |
| VaultKeys.SoloLookupsDisagree | api/connection/utils.py:210-216 | Two solo creations by one user make the service lookup and the one of the credential query name different keys |
| VaultKeys.RestampKeepsOrder | api/connection/key_service.py:211-295 | A later stamp comes after those it presupposes and leaves the order of the earlier ones as it was |
| VaultKeys.StampsInOrder | api/connection/key_service.py:196-207 | Over every run, created ≤ confirmed ≤ approved ≤ revoked holds for all keys if and only if no solo key's confirmation was read before its row got its creation time |
| VaultKeys.SoloCreationBreaksOrder | api/connection/key_service.py:196-207 | Where the clock advances while a key is created, all stamps of a run are in order if and only if no solo administrator created a key |
| VaultLegacy.OneTransfers | api/connection/utils.py:524-561 | Through an old- or new-format share the new key reads the credential exactly as the administrator did |
| VaultLegacy.OneSpares | api/connection/utils.py:534-561 | Any other key keeps its reading, except that a new-format holder loses a migrated credential |
| VaultLegacy.ActivationReadings | api/connection/utils.py:524-561 | The same after a complete activation, for all keys and credentials: a reading survives if and only if the key is not a new-format holder of a credential the administrator held in the old format |
| VaultReadings.PartialReadings | api/connection/utils.py:488-561 | Provisioning that finishes or stops half way costs another key a reading exactly if it gets to the credential and leaves the key behind |
| VaultReadings.ActivationStep | api/connection/utils.py:140-181 | The same for an activation, refused, failed or complete |
| VaultReadings.ReadingsLast | api/connection/utils.py:386-561 | Over every run from any state with shares of both formats, a key once approved opens a credential to the same text in all states if and only if no activation through an old-format share gets to it while the key holds a new-format one |
| VaultReadings.GetsToExactly | api/connection/utils.py:488-561 | If all shares of the administrator are sound, provisioning gets to a credential of which he holds a share exactly if the passphrase is right, whatever the listing order |
| VaultReadings.StrandsExactly | api/connection/utils.py:140-181 | So for such an administrator an accepted activation costs a key its reading of a credential exactly if he holds it in the old format, the key in the new one, and the passphrase is right |
| VaultLegacy.SecondMigrationBreaksFirst | api/connection/utils.py:524-561 | Two activations through the same old-format share: both keys read what the administrator read, and the second takes the first key's reading away |
| VaultLegacy.SecondMigrationHappens | api/connection/utils.py:524-561 | A concrete run of that kind |
| VaultService.Service.CreateKey | api/connection/key_service.py:163-209 | The row that is inserted; nothing is revoked |
| VaultService.Service.ConfirmKey | api/connection/key_service.py:211-250 | New tables and result, the idempotent and the revoked case included |
| VaultService.Service.RevokeKey | api/connection/key_service.py:281-295 | New tables; revoking twice changes nothing |
| VaultService.Service.ActivateKey | api/connection/utils.py:140-181 | New tables and error: guards, then the approval, then provisioning that may stop half way |
| VaultService.Service.ProvisionCredentialsForKey | api/connection/utils.py:468-561 | The loop over the credentials, both formats, with the rounds before an error saved |
| VaultService.Service.SetCredentials | api/connection/utils.py:386-446 | One sealed credential and one share for every active key, whatever the order of the loop |
| VaultService.Service.GetCredentials | api/connection/utils.py:184-266 | The text or the error, in both formats |
| TunnelKeys.KeyIsOwnExactly | query_service/drivers/tunnel.go:92-95 | A request has its key to itself if and only if neither the SSH user nor the database host contains an arrow and no number stands between two colons in the SSH host with the colon behind it or in the SSH user with the colon before it |
| TunnelKeys.OnePlainRequestPerKey | query_service/drivers/tunnel.go:92-95 | Each key belongs to exactly one request without a number between colons in the SSH host (and the colon behind it) and without an arrow in the SSH user |
| TunnelKeys.TunnelKeyIsInjective | query_service/drivers/tunnel.go:92-95 | So two such requests with equal keys are equal in all five fields; the SSH host may contain colons, as in [::1] |
| TunnelKeys.ArrowInUserIsAmbiguous | query_service/drivers/tunnel.go:92-95 | An SSH user with an arrow has a request with the same key and a shorter SSH user |
| TunnelKeys.ArrowInDatabaseIsAmbiguous | query_service/drivers/tunnel.go:92-95 | A database host with an arrow has one with a shorter database host |
| TunnelKeys.PortInHostIsAmbiguous | query_service/drivers/tunnel.go:92-95 | A number between colons in the SSH host, or at its end, gives one with a shorter SSH host |
| TunnelKeys.PortInUserIsAmbiguous | query_service/drivers/tunnel.go:92-95 | A number between colons in the SSH user, or at its start, gives one with a longer SSH host |
| TunnelModel.StepKeepsInv | query_service/drivers/tunnel.go:99-142 | Any step of any interleaving keeps: mapped tunnels are open and stored under their key, open tunnels are mapped, no channel was closed twice, refs is leases issued minus released |
| TunnelModel.TunnelsAreConserved | query_service/drivers/tunnel.go:264-297 | In every reachable state the open tunnels are exactly the map's values, at most one per key, no channel was closed twice and refs counts the outstanding leases |
| TunnelModel.ClosedExactlyThen | query_service/drivers/tunnel.go:127-130 | A step closes an open tunnel exactly if it is the shutdown, a cleanup that finds it expired and unleased, or a lookup of its key that finds it expired |
| TunnelModel.YoungTunnelsStayOpen | query_service/drivers/tunnel.go:106-130 | In every run without shutdown no tunnel younger than an hour is closed |
| TunnelModel.DialOutcome | query_service/drivers/tunnel.go:116-142 | What the slow path comes back with: the tunnel of its key if it is younger than an hour, otherwise the one dialled, with its port and creation time, or nothing if the dial failed |
| TunnelModel.TunnelIsShared | query_service/drivers/tunnel.go:99-142 | Over every run without shutdown a lookup of the same key shares the tunnel that was dialled, and its port, if and only if it returns within an hour of the creation |
| TunnelModel.YoungTunnelAnswers | query_service/drivers/tunnel.go:106-114 | Within that hour every lookup of the key is answered at once |
| TunnelModel.CleanupCloses | query_service/drivers/tunnel.go:264-274 | Cleanup closes an open tunnel exactly if it is expired and nobody holds a lease on it |
| TunnelModel.ExpiredLeaseIsClosed | query_service/drivers/tunnel.go:127-130 | A lookup of the key of an expired, leased tunnel closes it under its holder |
| TunnelModel.ExpiredLeaseHappens | query_service/drivers/tunnel.go:116-130 | For every request a run reaches such a state |
| TunnelModel.StepKeepsLeasesOpen | query_service/drivers/tunnel.go:106-142 | Where all leased tunnels are open, a step breaks this if and only if it is the shutdown or a lookup that finds a leased tunnel of its key expired |
| TunnelModel.LeasesStayOpen | query_service/drivers/tunnel.go:99-142 | Over every run from there all leased tunnels are open in all states if and only if there is no such step |
| TunnelModel.LeasesFitTheRequest | query_service/drivers/tunnel.go:99-142 | Whatever else was asked of the pool: when a lookup of an unambiguous request returns, its tunnel is open, leased, and was dialled for exactly the SSH and database endpoint asked for |
| TunnelModel.FitsExactly | query_service/drivers/tunnel.go:92-142 | In all runs every lookup of a request gets a tunnel to its own endpoint if and only if the request is unambiguous |
| TunnelModel.PlainLeasesFit | query_service/drivers/tunnel.go:99-142 | Where only plain requests are made every lease fits, also those of ambiguous requests |
| TunnelModel.RunKeepsPlain | query_service/drivers/tunnel.go:99-142 | The hypothesis of the last row holds throughout every run of plain requests |
| TunnelPools.TunnelPool.FastPath | query_service/drivers/tunnel.go:106-114 | The section under the read lock, as a step of the model |
| TunnelPools.TunnelPool.SlowPath | query_service/drivers/tunnel.go:116-142 | The section under the write lock, as a step of the model; the creation time is read after the dial |
| TunnelPools.TunnelPool.GetOrCreate | query_service/drivers/tunnel.go:99-142 | Without interference: fails exactly if no key is configured or neither a young tunnel nor a dial is there; the port belongs to an open young tunnel of this key, which gets one reference more, and no other does |
| TunnelPools.TunnelPool.CloseTunnelLocked | query_service/drivers/tunnel.go:276-282 | The channel was open and is closed once; only this entry and key change |
| TunnelPools.TunnelPool.CleanupStale | query_service/drivers/tunnel.go:264-274 | The loop closes exactly the expired tunnels without references |
| TunnelPools.TunnelPool.Drain | query_service/drivers/tunnel.go:291-296 | The loop closes every mapped tunnel and empties the map |
| TunnelPools.Tunnel.Release | query_service/drivers/tunnel.go:112-112 | One reference less, nothing else |
| ConnectionModel.PoolKeyIsInjective | query_service/drivers/pool.go:69-69 | Driver names without a colon make the pool key unambiguous |
| ConnectionModel.StepKeepsInv | query_service/drivers/pool.go:68-122 | Under any interleaving every mapped handle is open and was opened for exactly its key, and calls hold entries of their own key |
| ConnectionModel.RunKeepsInv | query_service/drivers/pool.go:68-167 | The same in every run |
| ConnectionModel.ReturnedFits | query_service/drivers/pool.go:92-121 | The handle a call returns was opened for the driver and connection string asked for; it is open if it comes from the slow path, and after a ping exactly if nothing closed it between the ping and the return |
| ConnectionModel.ReturnedClosedHappens | query_service/drivers/pool.go:78-93 | A run from the empty pool that returns a handle closed by another call's stale path between the ping and the return |
| ConnectionModel.ClosedExactlyThen | query_service/drivers/pool.go:81-89 | A step closes an open handle exactly if it is a stale path of a call that holds it, a cleanup that finds it mapped and idle, or a shutdown that finds it mapped |
| ConnectionModel.OpenAtTheEnd | query_service/drivers/pool.go:68-167 | Over every run an open handle stays open exactly if no such step comes; a closed one is never opened again |
| ConnectionModel.PickedHandleStays | query_service/drivers/pool.go:71-99 | A handle that a call picks is kept for ten minutes: over every run without a stale path for its key and without shutdown it stays open, and every call for the key finds it |
| ConnectionModel.RunKeepsColonFree | query_service/drivers/pool.go:68-122 | Its hypothesis, driver names without a colon, holds throughout every run whose calls name such drivers |
| ConnectionModel.StepKeepsTight | query_service/drivers/pool.go:85-88 | Where the open handles are exactly the mapped ones, a step breaks this if and only if it is a stale path that finds another entry in the place of the one it pinged |
| ConnectionModel.RunKeepsTight | query_service/drivers/pool.go:81-89 | Over every run the open handles are exactly the mapped ones in all states if and only if no stale path meets another entry |
| ConnectionModel.SerialRunsAreTight | query_service/drivers/pool.go:68-122 | In every serial run the open handles are exactly the mapped ones |
| ConnectionModel.SlowerDropOrphans | query_service/drivers/pool.go:81-89 | Of two calls with the same dead handle the slower one unmaps the replacement made by the faster one and leaves it open |
| ConnectionModel.OrphanHappens | query_service/drivers/pool.go:81-89 | A run from the empty pool that leaves a handle open and unmapped |
| ConnectionPools.ConnectionPool.Get | query_service/drivers/pool.go:68-122 | Without interference: which handle is returned and mapped, what is closed, when it fails; the retry ends because the key is unmapped then |
| ConnectionPools.ConnectionPool.Reuse | query_service/drivers/pool.go:72-93 | A live handle is returned and stamped; a dead one is closed and its key unmapped |
| ConnectionPools.ConnectionPool.CleanupStale | query_service/drivers/pool.go:139-151 | The loop closes and unmaps exactly the handles idle for over ten minutes |
| ConnectionPools.ConnectionPool.Drain | query_service/drivers/pool.go:160-166 | All handles are closed and the map is empty |
| VersionModel.SurvivorCount | api/workbench/utils.py:49-95 | Culling more than ten versions leaves 5, 6 or 7, or exactly ten in the fallback |
| VersionModel.KeptSurvive | api/workbench/utils.py:58-84 | Nothing that was to be kept is deleted |
| VersionModel.WindowsKeepAVersion | api/workbench/utils.py:65-77 | Every window of an hour, a day or a week that held a version still holds one |
| VersionModel.FallbackDeletesNewest | api/workbench/utils.py:86-89 | In the fallback every deleted version is newer than every survivor that was not to be kept |
| VersionRuns.CulledInTimeOrder | api/workbench/utils.py:49-95 | If times follow version numbers: the fallback is taken exactly if the fourth newest is over a week old and leaves the three newest and the seven oldest; otherwise a prefix and the oldest are left |
| VersionRuns.FallsBackExactly | api/workbench/utils.py:83-89 | Whatever the times, the fallback is taken exactly if every version between the three newest and the oldest is over a week old |
| VersionRuns.SurvivorsExactly | api/workbench/utils.py:58-84 | Whatever the times, outside the fallback exactly these survive: the newest three, what each window picks as its newest version not kept before, and the oldest |
| VersionRuns.SmallHistoryStays | api/workbench/utils.py:53-54 | Up to ten versions nothing is deleted |
| VersionRuns.TenEditsStay | api/workbench/utils.py:10-54 | Over every run of edits no version is missing if and only if there were at most ten |
| VersionRuns.EditKeepsWindows | api/workbench/utils.py:10-77 | After an edit every window that held a version, the new one included, holds one |
| VersionRuns.CulledKeepsEnds | api/workbench/utils.py:61-81 | Culling never touches the three newest nor the oldest, whatever the times, and keeps the order |
| VersionRuns.EditKeepsFaithful | api/workbench/utils.py:10-31 | The last edit of a run gets the number of edits and keeps the history faithful, whatever was deleted |
| VersionRuns.HistoryIsFaithful | api/workbench/utils.py:10-95 | Over every run of edits: at most ten versions, version 1 and the three newest among them, numbers strictly ordered and never reused, each survivor with key, content and creation time of the edit of its number |
| VersionHistory.History.CreateVersion | api/workbench/utils.py:10-31 | The new history and the version returned |
| VersionHistory.History.Cull | api/workbench/utils.py:34-95 | The nested loops compute the kept ids; the rows left and the count returned, which is 0 up to ten versions |
| SqlPrinter.SplitIsUndoneByJoin | query_service/handlers/export.go:242-248 | The parts of a table name contain no dot and join to the name |
| SqlRoundTrip.QuotedReadsBack | query_service/handlers/export.go:250-253 | Reading up to the closing quote undoes the doubling, for any text and either quote |
| SqlRoundTrip.LexIdentifier | query_service/handlers/export.go:250-253 | A quoted name is one identifier token with that name, or no token at all if it is empty |
| SqlRoundTrip.LexValue | query_service/handlers/export.go:255-305 | Nulls, booleans, integers of either sign and strings are read as the tokens of their kind, whatever a string contains |
| SqlRoundTrip.LexStatement | query_service/handlers/export.go:226-240 | A printed statement has exactly the tokens of its parts, or none if a name is empty |
| SqlRoundTrip.InsertReadsBack | query_service/handlers/export.go:226-248 | These tokens parse to the table parts, the columns in order and the values with their kinds |
| SqlRoundTrip.ExportRoundTrip | query_service/handlers/export.go:201-305 | Reading an export gives one insert per row, into the table, with the columns in order and under each column the row's own value of that name, or null, if and only if there are no rows or no part of the table name and no column name is empty |
| SqlExport.ExportWriter.ResolveColumns | query_service/handlers/export.go:165-199 | All columns, or the requested ones if all exist and none repeats; otherwise the first offender is reported, a missing one before a repeated one |
| SqlExport.ExportWriter.OnColumns | query_service/handlers/export.go:64-104 | When the export may start, and with which columns |
| SqlExport.ExportWriter.OnRow | query_service/handlers/export.go:106-152 | A row adds its own line and nothing else, or an error if no columns were set |
| SqlExport.ExportWriter.SelectRow | query_service/handlers/export.go:201-211 | Exactly the selected columns, null where the row has none |
| SqlExport.ExportWriter.BuildInsertStatement | query_service/handlers/export.go:226-240 | The loop prints the statement of the selected values |
| SqlExport.ExportWriter.WrittenReadsBack | query_service/handlers/export.go:106-152 | At any time of an export what was written reads back so, for exactly the rows so far, under the same condition |
| AccessModel.RowsEvolve | api/connection/api_access.py:267-427 | A step leaves a record alone or adds one stamp, never on a revoked record, and a decision only on a pending request |
| AccessModel.StepKeepsInv | api/connection/api_access.py:100-183 | Every step keeps: no record granted and denied, times in order, at most one unrevoked, undenied record per user and account and one unrevoked record per group and account |
| AccessModel.RunKeepsInv | api/connection/api_access.py:100-484 | So does every run |
| AccessModel.StampsAreFinal | api/connection/api_access.py:279-285 | Revoked is terminal, and a decided record can only be revoked, over every run; of records that no deletion of their account, database or group removes |
| AccessModel.ClientAgreesWithServer | frontend/src/queries/access.ts:167-181 | The client's active test agrees with the server's except at the very instant of expiry |
| AccessModel.StatusIsTheState | api/connection/api_access.py:472-484 | The reported status of a request is the state of the approval machine, and agrees with the client's two tests |
| AccessModel.StatusMovesForward | api/connection/api_access.py:472-484 | Over every run and while time passes the reported status of a record only moves forward, from pending over approved to expired or denied and to revoked |
| AccessModel.RequestOutcome | api/connection/api_access.py:145-183 | A request is accepted exactly without a standing record and for 1 to 168 hours or the default of 12, with the error for each other case; it then waits as the only standing record, with that expiry, and no other record is touched |
| AccessModel.PendingIsDecidable | api/connection/api_access.py:306-322 | The administrator's queue, the client's pending test and what approval and denial accept are the same records; a refusal names the stamp in the way |
| AccessModel.RequestedWindow | api/connection/api_access.py:165-183 | In every reachable state a requested record is active only at times t with requested ≤ granted ≤ t < requested + 168 h |
| AccessModel.CheckAgreesWithList | api/connection/policies.py:74-104 | For a member the access check passes exactly on the accounts of the accessible list, as far as these are active accounts of the workspace |
| AccessModel.CheckPassesExactly | api/connection/policies.py:74-104 | An administrator passes on every account, anybody else exactly through a record of his own, or of one of his groups, that is in force |
| AccessModel.GrantGivesAccess | api/connection/api_access.py:70-123 | After an accepted grant its user, or a member of its group, passes the check until the expiry, in every continuation in which it is not revoked |
| AccessModel.CreatorHasAccess | api/connection/api_database.py:427-434 | Whoever adds an account passes the check on it until that record is revoked |
| AccessModel.DecisionStamps | api/connection/api_access.py:343-440 | A decision stamps its record and touches no other; a refused one changes nothing |
| AccessModel.RevokeOutcome | api/connection/api_access.py:267-285 | A revocation is accepted exactly for a stored, unrevoked record, of a user or a group, and stamps this record only |
| AccessModel.RevokeCutsAccess | api/connection/api_access.py:267-285 | Revoking a direct record takes the account from a member without a group grant, at once and for every later time |
| AccessModel.DecisionHolds | api/connection/api_access.py:357-427 | In every continuation an approved request counts until its expiry unless revoked, a denied one never |
| AccessModel.DenialBlocksGrant | api/connection/api_access.py:100-111 | A denied user may ask again at once, but in every continuation in which the denial is not revoked an administrator's grant is refused |
| AccessModel.GrantOutcome | api/connection/api_access.py:70-123 | A grant is accepted exactly if it names one holder and this holder has no unrevoked record; it is in force until its expiry, and no other record is touched |
| AccessModel.GrantRefusedExactly | api/connection/api_access.py:100-111 | An administrator cannot grant an account to a user without direct access exactly if the user has a pending, denied or expired record |
| AccessModel.ExpiredGrantBlocks | api/connection/api_access.py:100-163 | After a grant or approval with an expiry, in every continuation in which it is not revoked, from the expiry on there is no direct access and neither a request nor a grant is accepted |
| AccessModel.ExpiredGrantHappens | api/connection/api_access.py:145-163 | A concrete run of that kind |
| AccessService.Service.GrantAccess | api/connection/api_access.py:70-142 | New table and error; accepted exactly for one holder without an unrevoked record |
| AccessService.Service.RequestAccess | api/connection/api_access.py:145-215 | New table and error; accepted exactly without a standing record and within the bounds of the timeout, and then pending |
| AccessService.Service.ApproveAccess | api/connection/api_access.py:343-397 | New table and error, with the order of the checks; accepted exactly for the records of the administrator's queue |
| AccessService.Service.DenyAccess | api/connection/api_access.py:400-453 | The same for a denial |
| AccessService.Service.RevokeAccess | api/connection/api_access.py:267-304 | New table and error; accepted exactly for a stored, unrevoked record, and then inactive for server and client at any time |
| AccessService.Service.History | api/connection/api_access.py:456-522 | The last 50 requests, each once with its status; none left out was requested later than one listed |
| MembershipRuns.UsableExactly | api/accounts/models.py:168-185 | The normalization leaves an address as it is exactly if it has no '@', or neither white space around it nor capitals behind its last '@' (ASCII capitals: letter case beyond ASCII is left out) |
| MembershipRuns.AdmissionOutcome | api/accounts/models.py:168-205 | Adding a user and a session succeeds exactly if the stored address is usable (not empty, and left as it is; letter case is that of ASCII) and the identity has no user there, active or not; otherwise nothing remains |
| MembershipRuns.AdmissionErrors | api/accounts/models.py:168-205 | The error of an admission: an empty address, a user in the workspace already, or an unusable address |
| MembershipRuns.CreateWorkspaceOutcome | api/accounts/api_identity.py:151-187 | Creating a workspace succeeds exactly for a live token of an identity with a usable address (letter case as above), and makes its user the only active administrator; otherwise the error says why and nothing is left |
| MembershipRuns.JoinOutcome | api/accounts/api_identity.py:222-358 | Joining succeeds exactly for a live token of an admitted identity whose address is usable (letter case as above) and which never had a user there, so that a deactivated user cannot come back this way; the other errors come in the order of the checks |
| MembershipRuns.SignedUpMayCreate | api/accounts/api_auth.py:80-111 | Signing up with any address and creating a workspace succeeds exactly if the address is usable (letter case as above); otherwise nothing is left behind |
| MembershipRuns.UnusableAddresses | api/accounts/models.py:168-198 | ASCII capitals in the domain, white space before or after the address, and the empty address are such cases |
| MembershipRuns.LoginOutcome | api/accounts/api_auth.py:385-432 | An accepted login opens a session of thirty days for the active user of the identity that joined first, or one without a user exactly if there is none; nothing else changes but the identity of an unknown address |
| MembershipRuns.SignUpOutcome | api/accounts/api_auth.py:80-111 | Signing up succeeds exactly for an address nobody has, and adds one identity and one session of thirty days |
| MembershipRuns.EnterOutcome | api/accounts/api_identity.py:195-219 | Entering a workspace succeeds exactly for a live token of an identity with an active user there, and opens a session of thirty days for that user |
| MembershipRuns.TokenOutcome | api/vaultsql/api.py:27-59 | A token authenticates a member exactly if its session is stored and not expired, names a workspace, and its user is active; an identity exactly if it is stored and not expired |
| MembershipRuns.LogoutOutcome | api/accounts/api_user.py:94-98 | Logging out succeeds exactly for a token that authenticates a member; the session goes, the token authenticates nothing from then on, and all other sessions stay |
| MembershipSessions.SessionLasts | api/vaultsql/api.py:27-59 | Over every run in which no later session draws its random token, a session is still stored if and only if it names no user, or its user is active and the token was not presented for logging out in time |
| MembershipSessions.LoginLasts | api/accounts/api_auth.py:403-432 | Over every such run the session of a login authenticates exactly for thirty days, as long as it is not logged out nor its user deactivated |
| MembershipRuns.UpdateRoleOutcome | api/accounts/api_group.py:81-106 | A role change succeeds exactly if an active administrator changes another active user of his workspace; all sessions of that user, and no others, carry the new role |
| MembershipRuns.DeactivateOutcome | api/accounts/api_group.py:109-135 | The same for a deactivation, which takes exactly the sessions of that user |
| MembershipRuns.ChangeRefused | api/accounts/api_group.py:81-135 | Why a role change or a deactivation is refused, in terms of the row of the token's user |
| MembershipRuns.StepKeepsInv | api/accounts/signals.py:7-37 | Every step keeps: a workspace session has its user's identity, workspace and role, its user is active, and every workspace has an active administrator |
| MembershipRuns.LastAdmin | api/accounts/api_group.py:81-135 | In every reachable state every workspace has an active administrator, every stored session agrees with its user, and no session belongs to a deactivated user |
| MembershipRuns.SoloAdminIsAlone | api/connection/key_service.py:139-159 | For the holder of a session, the solo test holds exactly if he is the only active administrator |
| MembershipRuns.RowsChange | api/accounts/api_group.py:81-135 | Nothing but a role change or deactivation by another administrator of the workspace ever changes a user |
| MembershipRuns.DeactivatedForever | api/accounts/api_group.py:109-135 | In no continuation does a session of that identity lead into that workspace again |
| Membership.Service.Save | api/accounts/signals.py:7-37 | Saving with named fields, and both receivers of the signal |
| Membership.Service.InsertSession | api/accounts/models.py:476-497 | A session is inserted exactly if identity, workspace and role agree with its user, or all are absent |
| Membership.Service.SignUp | api/accounts/api_auth.py:80-111 | New tables and error |
| Membership.Service.Login | api/accounts/api_auth.py:385-432 | New tables after the credentials or the code were accepted |
| Membership.Service.Logout | api/accounts/api_user.py:94-98 | The session of the token is gone |
| Membership.Service.CreateWorkspace | api/accounts/api_identity.py:151-192 | New tables and error; an error inside the transaction undoes everything |
| Membership.Service.JoinWorkspace | api/accounts/api_identity.py:222-358 | The same for joining |
| Membership.Service.LoginWorkspace | api/accounts/api_identity.py:195-219 | A session for the active user of this identity, or an error |
| Membership.Service.AuthenticateMember | api/vaultsql/api.py:45-59 | Which tokens authenticate a member |
| Membership.Service.UpdateUserRole | api/accounts/api_group.py:81-106 | New tables and error, with the order of the checks; accepted exactly for an administrator's change of another active user, whose sessions then all carry the role |
| Membership.Service.DeactivateUser | api/accounts/api_group.py:109-135 | New tables and error, with the order of the checks; accepted exactly as above, and no session of the user is left |
| LoginCodeRuns.RateIsLimited | api/accounts/api_auth.py:317-331 | Over every run at most three codes are created for an address in any closed span of ten minutes, deleted rows counted |
| LoginCodeRuns.LimiterIsExact | api/accounts/api_auth.py:317-325 | A request is turned away, and changes nothing, exactly if three codes were created for the address in the last ten minutes; otherwise it adds one row |
| LoginCodeRuns.FewAreLive | api/accounts/models.py:91-131 | So at most three codes of an address are live at any instant |
| LoginCodeRuns.VerifiesAtMostOnce | api/accounts/api_auth.py:371-383 | Over every run each code verifies at most once, and only if it was created |
| LoginCodeRuns.VerifiesInTime | api/accounts/api_auth.py:371-383 | A code verifies only within ten minutes of its creation, for its own address and digits |
| LoginCodeRuns.VerifyOutcome | api/accounts/api_auth.py:371-383 | One live code with the digits is accepted and no longer live, none is refused, several are an error |
| LoginCodeRuns.CodeIsAccepted | api/accounts/api_auth.py:308-383 | Over every run the code of an accepted request is accepted exactly with its address in any case and its digits in any white space, within ten minutes, once, and without another live code with the same digits |
| LoginCodeRuns.CleanupKeepsInv | api/accounts/tasks.py:6-15 | The cleanup deletes no row that the limiter still counts |
| LoginCodeRuns.CleanupExactly | api/accounts/tasks.py:6-15 | The cleanup deletes exactly the codes made more than a day before and changes no other |
| LoginCodeRuns.TwinsBlock | api/accounts/api_auth.py:372-378 | Two live codes with the same digits block each other |
| LoginCodeRuns.TwinsHappen | api/accounts/models.py:107-131 | Two requests that draw the same digits lead there |
| LoginCodes.Service.RequestLoginCode | api/accounts/api_auth.py:308-331 | Turned away exactly if three codes were created for the address in the last ten minutes; otherwise one row more |
| LoginCodes.Service.VerifyLoginCode | api/accounts/api_auth.py:362-383 | Accepted exactly if one live code matches the address and the stripped digits, and it was never accepted before |
| LoginCodes.Service.CleanupExpired | api/accounts/tasks.py:6-15 | Exactly the rows older than a day go, and their number is returned |

## Left out

- VaultService.Service.CreateKey: whether the user is a solo administrator is a parameter; `MembershipRuns.SoloAdminIsAlone` says what it means.
- AccessService.Service.History: the order of the query is a parameter constrained to newest first, because the sort is the database's.
- Membership.Service.Save: the `is_active` flags of users and workspaces are not modelled, because no endpoint changes them.
- Membership.Service.JoinWorkspace: whether an invitation or an allowed domain admits the identity is a parameter.
- Membership.Service.DeactivateUser: the clock is read once, for the token's expiry and for the stamp.
- Managed, streamlined and BYOK workspaces, which use one master key, and the sample payload for trying a passphrase.
- Real cryptography, PEM, hex and UTF-8 encodings, random generators and their (negligible) collisions.
- Several workspaces in the vault and access tables: the model is one workspace; membership has any number.
- Races between Django requests: an endpoint is one step, and only the two Go pools interleave.
- SSH dialling, forwarding and statement execution; dials, pings and `sql.Open` have outcomes given as parameters, and a ping of a closed handle fails.
- Calling a tunnel's release function more than once, and the 32-bit overflow of its counter.
- CSV and JSON exports, floats, times and JSON documents inside the SQL export, and MySQL quoting.
- Clock resolution: timestamps are exact, so the truncation of `Date` to milliseconds is not modelled.
- Equal timestamps in an ordered query: the model breaks ties by primary key, the database may not.
- MembershipRuns.UsableExactly: letter case beyond ASCII. The code lower-cases every letter of the domain, so "ann@É.com" is refused like "ann@A.com", while the model takes it for usable.
- MembershipRuns.AdmissionOutcome: the same limit on the address, because usability is that of `UsableExactly`.
- MembershipRuns.CreateWorkspaceOutcome: the same limit on the address.
- MembershipRuns.JoinOutcome: the same limit on the address.
- MembershipRuns.SignedUpMayCreate: the same limit on the address.
- Letter case beyond ASCII in the addresses of login codes as well.
- AccessModel.StampsAreFinal: records that go when their account, database or group is deleted (api/connection/api_database.py:265, 472; api/accounts/api_group.py:183) are not modelled, so that a record stays in the table of every run.
- The format check on the e-mail addresses of responses, which may keep a token from its caller: the model lets every session be used.
- Notifications, audit log, e-mail, OAuth, markdown rendering, storage, tags, demo data: no state the properties depend on.
