# evekit-data-platform token lifecycle, in Dafny

This project models the token lifecycle core of the EveKit data platform:

- **ESITokenManager**: the three-legged OAuth 2.0 authorization-code flow. It covers the start of an authorization, the provider callback, and the refresh-ahead renewal of access tokens.
- **NewESIToken**: the short-lived pending-authorization row. It binds the redirect's `state` value to the callback.
- **ESIToken**: the long-lived credential.
- **DataPlatformUserAccount**: the user account.
- **DataPlatformUserAuthSource**: the account's login sources.
- **DataSourceUpdateTracker**: the data source's update trackers.
- **CmdLineTool**: the command-line get-or-create rule for trackers.

Each database table is a `map<int, Row>` keyed by the row's ID. Every store operation is a pure function from the old tables to the new ones. Things the Java obtains from outside become explicit parameters:

- the current time;
- the random seed;
- the digest that turns a kid and seed into a state value;
- the configured lifetime of a pending request;
- every answer of the identity provider (the code exchange, the verification request and the refresh grant).

Modules, one per Java class:

| file | module | class |
|---|---|---|
| tables.dfy | Tables | IDs from the shared sequence, `getSingleResult` and "order by … desc" query semantics |
| wrappers.dfy | Wrappers | `Option` |
| decimal.dfy | Decimal | `String.valueOf(long)` |
| user_account.dfy | UserAccounts | DataPlatformUserAccount |
| auth_source.dfy | AuthSources | DataPlatformUserAuthSource |
| update_tracker.dfy | UpdateTrackers | DataSourceUpdateTracker |
| cmd_line_tool.dfy | TrackerCommands | CmdLineTool `create` |
| esi_token.dfy | EsiTokens | ESIToken |
| new_esi_token.dfy | NewEsiTokens | NewESIToken |
| esi_token_manager.dfy | EsiTokenManager | ESITokenManager |

Modelling choices that follow the code:

- JPA's `getSingleResult` throws for zero rows and for several. The query methods catch both exceptions and return null. `Tables.Only` models this, so `getSource`, `getUnfinishedTracker` and `getKeyByState` answer only when exactly one row matches.
- The "order by X desc" queries limited to one row return a row with the greatest X. Among ties the model picks the smallest ID; the contracts state only the maximum.
- Every entity takes its ID from one shared sequence, `dp_sequence`, which starts at 100000 and never repeats a value. Each create takes the sequence's next value as a parameter `next`, and the sequence continues from the issued ID plus one. `EsiTokenManager.Db` carries the sequence for the manager's tables. `Tables.FreshId` also stays above every live ID of the table, so an ID is never reused after a delete. While the sequence is ahead of the table (`Tables.InStep`), the issued ID is exactly `next`.
- `valid` is a transient field of ESIToken: it is never stored, so a token read back from the table always has it false until `updateValid` recomputes it. `EsiTokens.Update` clears it on the way in.
- Ownership checks use `DataPlatformUserAccount.equals`, which compares uid, created, admin and last. `EsiTokens.IsOwnedBy` compares the caller's account value with the stored row for the owner's uid. In the callback, both accounts are loaded from the store, so the model compares uids.
- Behaviours of the code worth noting:
  - Re-authentication keeps the token's character name; only a newly created token gets the verified name.
  - The refresh path rejects only a null refresh token. An empty one is sent to the provider.
  - A refreshed token's expiry is `expiresIn*1000` past a second clock reading, taken after the provider answers; the window test uses an earlier one. Measured from that second reading, the token lies beyond the renewal window only when the provider's lifetime covers the window (`RenewedTokenIsFresh`).
  - `createToken` does not check that the account exists.

## Model

| member | source | states |
|---|---|---|
| Tables.FreshId | src/main/java/enterprises/orbital/evekit/dataplatform/ESIToken.java:51-61 | a new ID is never below the sequence's next value nor its initial value 100000, and is above every live ID, so a deleted row's ID is never issued again |
| Tables.FreshIdIsNext | src/main/java/enterprises/orbital/evekit/dataplatform/ESIToken.java:51-61 | while the sequence is ahead of the table, the new ID is exactly the sequence's next value |
| Tables.Only | src/main/java/enterprises/orbital/evekit/dataplatform/NewESIToken.java:238-256 | `getSingleResult` gives an answer exactly when one row matches, and that row is the only match |
| Tables.ArgMax | src/main/java/enterprises/orbital/evekit/dataplatform/DataSourceUpdateTracker.java:301-319 | "order by … desc" with one result picks a row whose score is no smaller than any other matching row's |
| Decimal.IntRoundTrip | src/main/java/enterprises/orbital/evekit/dataplatform/DataPlatformUserAccount.java:251-255 | the decimal spelling of a uid parses back to the same uid |
| Decimal.IntToStringInjective | src/main/java/enterprises/orbital/evekit/dataplatform/DataPlatformUserAccount.java:251-255 | distinct uids have distinct decimal spellings |
| UserAccounts.CreateNewUserAccount | src/main/java/enterprises/orbital/evekit/dataplatform/DataPlatformUserAccount.java:147-163 | a new account gets a uid from the sequence, absent from the table, and the given admin flag, with created = last = now; other rows are unchanged |
| UserAccounts.GetAccount | src/main/java/enterprises/orbital/evekit/dataplatform/DataPlatformUserAccount.java:171-190 | the row with that uid, or null exactly when there is none |
| UserAccounts.CreateThenGet | src/main/java/enterprises/orbital/evekit/dataplatform/DataPlatformUserAccount.java:147-190 | a new account is found by its uid, and every other uid's lookup is unchanged |
| UserAccounts.Touch | src/main/java/enterprises/orbital/evekit/dataplatform/DataPlatformUserAccount.java:198-214 | re-reads the stored row by uid and sets only its last-used time to now; a missing account gives null and no change |
| UserAccounts.TouchThenGet | src/main/java/enterprises/orbital/evekit/dataplatform/DataPlatformUserAccount.java:171-214 | after touch, the lookup returns the touched row: last = now, creation time kept |
| UserAccounts.TouchUsesStoredRow | src/main/java/enterprises/orbital/evekit/dataplatform/DataPlatformUserAccount.java:198-214 | touch depends only on the caller's uid, not on the caller's possibly stale copy |
| UserAccounts.TouchIdempotent | src/main/java/enterprises/orbital/evekit/dataplatform/DataPlatformUserAccount.java:198-214 | touching twice at the same instant is touching once |
| UserAccounts.IsDisabled | src/main/java/enterprises/orbital/evekit/dataplatform/DataPlatformUserAccount.java:69-71 | accounts are never disabled |
| UserAccounts.PersistentPropertyKey | src/main/java/enterprises/orbital/evekit/dataplatform/DataPlatformUserAccount.java:251-255 | the key is the class prefix, the uid and the field, in that order |
| UserAccounts.PropertyKeyRoundTrip | src/main/java/enterprises/orbital/evekit/dataplatform/DataPlatformUserAccount.java:251-255 | the uid and the field can be read back from a property key |
| UserAccounts.PropertyKeyInjective | src/main/java/enterprises/orbital/evekit/dataplatform/DataPlatformUserAccount.java:251-255 | two accounts or two fields never share a property key |
| AuthSources.GetSource | src/main/java/enterprises/orbital/evekit/dataplatform/DataPlatformUserAuthSource.java:184-205 | answers exactly when one row of the account has that source, and returns such a row |
| AuthSources.GetSourceFindsRow | src/main/java/enterprises/orbital/evekit/dataplatform/DataPlatformUserAuthSource.java:184-205 | with one row per account and source, every row is found by its own account and source |
| AuthSources.GetSourceNoneMeansNoRow | src/main/java/enterprises/orbital/evekit/dataplatform/DataPlatformUserAuthSource.java:184-205 | with one row per account and source, null means the account has no row for that source |
| AuthSources.GetLastUsedSource | src/main/java/enterprises/orbital/evekit/dataplatform/DataPlatformUserAuthSource.java:224-241 | null exactly when the account has no sources; otherwise one of its sources, used no earlier than any other |
| AuthSources.GetBySourceScreenname | src/main/java/enterprises/orbital/evekit/dataplatform/DataPlatformUserAuthSource.java:259-278 | null exactly when no row has that source and screen name; otherwise such a row |
| AuthSources.CreateSource | src/main/java/enterprises/orbital/evekit/dataplatform/DataPlatformUserAuthSource.java:303-327 | returns the existing row for the account and source unchanged; otherwise adds one row with last = now and an ID from the sequence |
| AuthSources.CreateSourceThenByScreenname | src/main/java/enterprises/orbital/evekit/dataplatform/DataPlatformUserAuthSource.java:259-327 | a row create adds is found by its source and screen name, and is the answer when no older row shares both |
| AuthSources.CreateSourceIdempotent | src/main/java/enterprises/orbital/evekit/dataplatform/DataPlatformUserAuthSource.java:303-327 | a second create for the same account and source changes nothing and returns the same row |
| AuthSources.CreateSourceKeepsUnique | src/main/java/enterprises/orbital/evekit/dataplatform/DataPlatformUserAuthSource.java:303-327 | create keeps at most one row per account and source |
| AuthSources.RemoveSourceIfExists | src/main/java/enterprises/orbital/evekit/dataplatform/DataPlatformUserAuthSource.java:329-343 | removes the account's row for that source if getSource finds one; otherwise nothing changes |
| AuthSources.RemoveThenAbsent | src/main/java/enterprises/orbital/evekit/dataplatform/DataPlatformUserAuthSource.java:329-343 | after removal the source is no longer found for the account |
| AuthSources.Touch | src/main/java/enterprises/orbital/evekit/dataplatform/DataPlatformUserAuthSource.java:345-362 | stores the found row with only its last-used time set to now and returns that row; a missing row gives null and no change |
| AuthSources.TouchMakesLastUsed | src/main/java/enterprises/orbital/evekit/dataplatform/DataPlatformUserAuthSource.java:345-362 | a source touched now becomes the account's last-used source |
| AuthSources.UpdateAccount | src/main/java/enterprises/orbital/evekit/dataplatform/DataPlatformUserAuthSource.java:280-301 | stores the found row under the new account and returns it when both the row and the account exist; otherwise null and no change |
| AuthSources.UpdateAccountKeepsUnique | src/main/java/enterprises/orbital/evekit/dataplatform/DataPlatformUserAuthSource.java:280-301 | moving a source to an account without that source keeps one row per account and source |
| UpdateTrackers.CreateTracker | src/main/java/enterprises/orbital/evekit/dataplatform/DataSourceUpdateTracker.java:207-220 | adds one tracker with a tid from the sequence, in state NotStarted, with start and end unset (-1) |
| UpdateTrackers.FinishTracker | src/main/java/enterprises/orbital/evekit/dataplatform/DataSourceUpdateTracker.java:222-236 | stores the tracker with end = now and the given status and detail; other fields and rows are unchanged |
| UpdateTrackers.Get | src/main/java/enterprises/orbital/evekit/dataplatform/DataSourceUpdateTracker.java:249-266 | finds the tracker with that tid only when it belongs to the given source |
| UpdateTrackers.CreateThenGet | src/main/java/enterprises/orbital/evekit/dataplatform/DataSourceUpdateTracker.java:207-266 | a new tracker is found under its own source and under no other |
| UpdateTrackers.FinishThenGet | src/main/java/enterprises/orbital/evekit/dataplatform/DataSourceUpdateTracker.java:222-266 | a finished tracker is what `get` returns for its source, and no other source reads it |
| UpdateTrackers.GetUnfinishedTracker | src/main/java/enterprises/orbital/evekit/dataplatform/DataSourceUpdateTracker.java:268-285 | answers exactly when one unfinished tracker of that type exists, and returns it |
| UpdateTrackers.GetAllUnfinishedTracker | src/main/java/enterprises/orbital/evekit/dataplatform/DataSourceUpdateTracker.java:287-299 | exactly the source's trackers whose end is unset |
| UpdateTrackers.CreateThenUnfinished | src/main/java/enterprises/orbital/evekit/dataplatform/DataSourceUpdateTracker.java:207-299 | a new tracker is listed among its source's unfinished trackers |
| UpdateTrackers.FinishThenNotUnfinished | src/main/java/enterprises/orbital/evekit/dataplatform/DataSourceUpdateTracker.java:222-299 | a tracker finished at a real time is no longer listed as unfinished, neither as finished nor as the caller's earlier copy |
| UpdateTrackers.GetLatestFinishedTrackers | src/main/java/enterprises/orbital/evekit/dataplatform/DataSourceUpdateTracker.java:301-319 | null exactly when no tracker of that type has finished; otherwise one with the latest end |
| UpdateTrackers.InsertByEnd | src/main/java/enterprises/orbital/evekit/dataplatform/DataSourceUpdateTracker.java:62-63 | inserting into a list ordered by descending end keeps it ordered and adds exactly that tracker |
| UpdateTrackers.GetAllLatestFinishedTrackers | src/main/java/enterprises/orbital/evekit/dataplatform/DataSourceUpdateTracker.java:321-333 | every finished tracker of the source exactly once, ordered by descending end time |
| UpdateTrackers.FinishBecomesLatest | src/main/java/enterprises/orbital/evekit/dataplatform/DataSourceUpdateTracker.java:222-236 | a tracker finished no earlier than the others of its type becomes the latest finished one |
| UpdateTrackers.FinishLeavesUnfinished | src/main/java/enterprises/orbital/evekit/dataplatform/DataSourceUpdateTracker.java:222-236 | finishing removes exactly that tracker from the unfinished ones of its type |
| UpdateTrackers.NoUnfinishedMeansNone | src/main/java/enterprises/orbital/evekit/dataplatform/DataSourceUpdateTracker.java:268-285 | with at most one unfinished tracker per type, null means there is none |
| TrackerCommands.CreateOrReuseTracker | src/main/java/enterprises/orbital/evekit/dataplatform/CmdLineTool.java:201-206 | returns the existing unfinished tracker of the type with the table unchanged, or else stores and returns a new NotStarted tracker with start unset and a tid from the sequence |
| TrackerCommands.CreateOrReuseKeepsOneUnfinished | src/main/java/enterprises/orbital/evekit/dataplatform/CmdLineTool.java:201-206 | get-or-create keeps at most one unfinished tracker per type |
| EsiTokens.UpdateValid | src/main/java/enterprises/orbital/evekit/dataplatform/ESIToken.java:142-144 | valid exactly when a non-empty refresh token is present; nothing else changes |
| EsiTokens.UpdateValidIdempotent | src/main/java/enterprises/orbital/evekit/dataplatform/ESIToken.java:142-144 | recomputing the flag twice is recomputing it once |
| EsiTokens.OwnershipByUid | src/main/java/enterprises/orbital/evekit/dataplatform/DataPlatformUserAccount.java:110-120 | for the caller's current account row, ownership is equality of uids |
| EsiTokens.StaleAccountOwnsNothing | src/main/java/enterprises/orbital/evekit/dataplatform/DataPlatformUserAccount.java:110-120 | a stale copy of an account owns no token |
| EsiTokens.CreateKey | src/main/java/enterprises/orbital/evekit/dataplatform/ESIToken.java:181-199 | a new token under a kid from the sequence, with owner, scopes and name set, no secrets, expiry 0 and not valid |
| EsiTokens.GetKeyByID | src/main/java/enterprises/orbital/evekit/dataplatform/ESIToken.java:201-219 | the row with that kid, or null exactly when there is none |
| EsiTokens.DeleteKey | src/main/java/enterprises/orbital/evekit/dataplatform/ESIToken.java:237-253 | removes the token only when it exists and the caller owns it; always reports success |
| EsiTokens.DeleteByOwnerRemoves | src/main/java/enterprises/orbital/evekit/dataplatform/ESIToken.java:237-253 | the owner's delete removes exactly that token |
| EsiTokens.Update | src/main/java/enterprises/orbital/evekit/dataplatform/ESIToken.java:255-265 | stores every persistent field of the token under its kid with the transient flag cleared; other rows are unchanged |
| EsiTokens.UpdateThenGet | src/main/java/enterprises/orbital/evekit/dataplatform/ESIToken.java:91-95 | a token read back is never valid, and recomputing the flag gives what the writer would have computed |
| EsiTokens.SerializedView | src/main/java/enterprises/orbital/evekit/dataplatform/ESIToken.java:44-46 | the JSON view keeps the public fields |
| EsiTokens.ViewOmitsSecrets | src/main/java/enterprises/orbital/evekit/dataplatform/ESIToken.java:44-46 | the JSON view does not depend on the access or refresh token |
| NewEsiTokens.WellFormedStatesUnique | src/main/java/enterprises/orbital/evekit/dataplatform/NewESIToken.java:293-303 | an injective digest of (kid, seed) gives every pending row its own state value |
| NewEsiTokens.CreateKey | src/main/java/enterprises/orbital/evekit/dataplatform/NewESIToken.java:172-216 | stores the request under a kid from the sequence, with the digest of that kid and the seed as its state |
| NewEsiTokens.CreateKeyStateIsFresh | src/main/java/enterprises/orbital/evekit/dataplatform/NewESIToken.java:172-216 | the new state value differs from every pending row's |
| NewEsiTokens.GetKeyByID | src/main/java/enterprises/orbital/evekit/dataplatform/NewESIToken.java:218-236 | the row with that kid, or null exactly when there is none |
| NewEsiTokens.GetKeyByState | src/main/java/enterprises/orbital/evekit/dataplatform/NewESIToken.java:238-256 | answers exactly when one row has that state, and then every row with that state is the answer |
| NewEsiTokens.GetKeyByStateFindsRow | src/main/java/enterprises/orbital/evekit/dataplatform/NewESIToken.java:238-256 | in a well-formed table every row is found by its own state |
| NewEsiTokens.CreateKeyThenFound | src/main/java/enterprises/orbital/evekit/dataplatform/NewESIToken.java:172-256 | a stored request is found by its state, and deleting it restores the table |
| NewEsiTokens.CleanExpired | src/main/java/enterprises/orbital/evekit/dataplatform/NewESIToken.java:258-275 | keeps exactly the rows whose expiry is after the limit, unchanged |
| NewEsiTokens.CleanExpiredIdempotent | src/main/java/enterprises/orbital/evekit/dataplatform/NewESIToken.java:258-275 | a later sweep with an earlier or equal limit removes nothing more |
| NewEsiTokens.CleanExpiredCompose | src/main/java/enterprises/orbital/evekit/dataplatform/NewESIToken.java:258-275 | two sweeps equal one sweep at the later limit |
| NewEsiTokens.CleanExpiredKeepsWellFormed | src/main/java/enterprises/orbital/evekit/dataplatform/NewESIToken.java:258-275 | a sweep keeps the table well formed |
| NewEsiTokens.DeleteKey | src/main/java/enterprises/orbital/evekit/dataplatform/NewESIToken.java:277-291 | removes the row with that kid if present and changes nothing else; always reports success |
| EsiTokenManager.TempTokenLifetime | src/main/java/enterprises/orbital/evekit/dataplatform/ESITokenManager.java:38-39 | the configured lifetime, or ten minutes when unset |
| EsiTokenManager.CreateToken | src/main/java/enterprises/orbital/evekit/dataplatform/ESITokenManager.java:62-76 | a re-authentication target that is missing or not the caller's gives null and no change; otherwise stores one request under a kid from the sequence, expiring after the lifetime, advances the sequence past it and returns its state |
| EsiTokenManager.CreateTokenStateIsFresh | src/main/java/enterprises/orbital/evekit/dataplatform/ESITokenManager.java:73-75 | the state handed out is unlike that of any request still pending |
| EsiTokenManager.CreateTokenThenFound | src/main/java/enterprises/orbital/evekit/dataplatform/ESITokenManager.java:73-75 | the state handed out leads back to the stored request, with the caller's account, scopes, target and expiry |
| EsiTokenManager.ProcessTokenCallback | src/main/java/enterprises/orbital/evekit/dataplatform/ESITokenManager.java:78-119 | a missing or unknown state gives false and no change; otherwise the request is consumed first, and a refused exchange or verification then fails with the tokens unchanged |
| EsiTokenManager.Store | src/main/java/enterprises/orbital/evekit/dataplatform/ESITokenManager.java:102-118 | the step after a successful exchange and verification returns true exactly for a first authorization or a re-authentication of a token the requester still owns, and false with nothing changed otherwise; the pending table and accounts stay as they are and the sequence never moves back |
| EsiTokenManager.CallbackReauthenticates | src/main/java/enterprises/orbital/evekit/dataplatform/ESITokenManager.java:103-116 | re-authentication writes scopes and the grant into the existing token in place when it still belongs to the requester; otherwise false with the tokens unchanged |
| EsiTokenManager.CallbackCreatesToken | src/main/java/enterprises/orbital/evekit/dataplatform/ESITokenManager.java:107-118 | a first authorization adds one token for the requester, with the verified name, the scopes and the grant |
| EsiTokenManager.CallbackNoReplay | src/main/java/enterprises/orbital/evekit/dataplatform/ESITokenManager.java:82-86 | a second callback with the same state returns false and changes nothing, whatever happened the first time |
| EsiTokenManager.RefreshToken | src/main/java/enterprises/orbital/evekit/dataplatform/ESITokenManager.java:121-146 | unknown kid fails; outside the window the stored token is returned without asking the provider; a null refresh token fails; a refusal clears the refresh token and fails; a grant replaces token and refresh token, with the expiry counted from the clock reading taken after the provider answered |
| EsiTokenManager.RefusedRefreshInvalidates | src/main/java/enterprises/orbital/evekit/dataplatform/ESITokenManager.java:129-136 | after a refused refresh, every request inside the window fails without asking the provider |
| EsiTokenManager.RenewedTokenIsFresh | src/main/java/enterprises/orbital/evekit/dataplatform/ESITokenManager.java:138-145 | a renewed token is served without the provider, at the instant its expiry was counted from, exactly when the grant's lifetime covers the window |
| EsiTokenManager.RefreshCallsProviderIffInWindow | src/main/java/enterprises/orbital/evekit/dataplatform/ESITokenManager.java:127-131 | the provider is asked exactly when the token is inside the window and holds a refresh token |
| EsiTokenManager.Init | src/main/java/enterprises/orbital/evekit/dataplatform/ESITokenManager.java:43-60 | the reaper is launched exactly when it was not already started |
| EsiTokenManager.InitLaunchesOnce | src/main/java/enterprises/orbital/evekit/dataplatform/ESITokenManager.java:43-60 | a second init launches nothing |
| EsiTokenManager.Sweep | src/main/java/enterprises/orbital/evekit/dataplatform/ESITokenManager.java:49-50 | a reaper pass removes exactly the requests expired by now and touches no other table |
| EsiTokenManager.RequestLifetime | src/main/java/enterprises/orbital/evekit/dataplatform/ESITokenManager.java:65-67 | a new request survives every sweep before its lifetime has passed and is gone after any sweep at or after it |
| EsiTokenManager.CreateTokenKeepsValid | src/main/java/enterprises/orbital/evekit/dataplatform/ESITokenManager.java:62-76 | createToken keeps the invariants: the pending table well formed, the tokens keyed by kid and without the flag, and the sequence ahead of every table |
| EsiTokenManager.CallbackKeepsValid | src/main/java/enterprises/orbital/evekit/dataplatform/ESITokenManager.java:78-119 | the callback keeps the invariants |
| EsiTokenManager.RefreshKeepsValid | src/main/java/enterprises/orbital/evekit/dataplatform/ESITokenManager.java:121-146 | refresh keeps the invariants |
| EsiTokenManager.SweepKeepsValid | src/main/java/enterprises/orbital/evekit/dataplatform/ESITokenManager.java:49-50 | the reaper keeps the invariants |
| EsiTokenManager.CreateTokenStoresRequest | src/main/java/enterprises/orbital/evekit/dataplatform/ESITokenManager.java:62-76 | on its success path createToken stores exactly the pending table's createKey result and advances the sequence past its kid |
| EsiTokenManager.AuthorizationFlow | src/main/java/enterprises/orbital/evekit/dataplatform/ESITokenManager.java:62-119 | start then callback with a non-empty refresh grant adds one token for the caller, stored without the flag and valid once it is recomputed, and leaves no request behind |
| EsiTokenManager.CallbackRetiresState | src/main/java/enterprises/orbital/evekit/dataplatform/ESITokenManager.java:82-86 | the callback retires the state it consumes: issued for a kid below the sequence, and no pending request carries it |
| EsiTokenManager.RetiredStateRejected | src/main/java/enterprises/orbital/evekit/dataplatform/ESITokenManager.java:82-86 | a callback with a retired state returns false and changes nothing |
| EsiTokenManager.CreateTokenKeepsRetired | src/main/java/enterprises/orbital/evekit/dataplatform/ESITokenManager.java:62-76 | a later createToken never hands out a retired state again, with any seed, and the state stays retired |
| EsiTokenManager.CallbackKeepsRetired | src/main/java/enterprises/orbital/evekit/dataplatform/ESITokenManager.java:78-119 | any callback keeps a retired state retired |
| EsiTokenManager.RefreshKeepsRetired | src/main/java/enterprises/orbital/evekit/dataplatform/ESITokenManager.java:121-146 | a refresh keeps a retired state retired |
| EsiTokenManager.SweepKeepsRetired | src/main/java/enterprises/orbital/evekit/dataplatform/ESITokenManager.java:49-50 | a reaper pass keeps a retired state retired |
| EsiTokenManager.NoReplayAfterNewRequest | src/main/java/enterprises/orbital/evekit/dataplatform/ESITokenManager.java:62-119 | after a callback consumed a state, a new authorization gets another state and a replay of the old one still returns false |
| EsiTokenManager.CreateTokenUsesSequence | src/main/java/enterprises/orbital/evekit/dataplatform/ESITokenManager.java:62-76 | under the invariants the new request's kid is the sequence's next value and the sequence moves on by one |

## Left out

- Threads and locking: the reaper thread's loop, its five-minute sleep and the `synchronized` block in `init` are not modelled. Each operation is one atomic step. Interleavings of the reaper with callbacks are not modelled.
- Network and OAuth plumbing are not modelled:
  - `EVEAuthHandler.doGet` and the redirect URL;
  - the scribejava service;
  - the verification request and the JSON parsing of `CharacterName`.
  The provider's answers are inputs. The model returns the state value instead of the redirect URL.
- Store failures: every `catch (Exception)` that logs and returns null or false is not modelled; the store never fails. Because of this, `refreshToken`'s "failed to save" path (line 143) cannot occur.
- Stamper.digest is not part of this model. The state value is a digest parameter; uniqueness lemmas assume it is injective.
- The reads of `OrbitalProperties` (time and configuration) are parameters, one per read: `refreshToken` reads the clock twice, so it takes `now` for the window test and `renewedAt` for the new expiry.
- 64-bit overflow of times and `TimeUnit` saturation: arithmetic is unbounded.
- Block allocation of the sequence (`allocationSize = 10`) is not modelled: IDs come out consecutively, without the gaps that pre-allocated blocks leave. Uniqueness and growth, which the proofs use, are unaffected.
- The creates outside the manager take the sequence's next value from their caller; only `EsiTokenManager.Db` carries it from one call to the next.
- `PROP_TOTAL_TOKEN_LIMIT` and `DEF_TOTAL_TOKEN_LIMIT` are declared but never used by the core, so they are not modelled.
- The list queries `ESIToken.getAllKeys` and `DataPlatformUserAuthSource.getAllSources`/`getAll` are not modelled, because they are plain filters with no logic of their own. The same goes for the pass-through saves `DataSourceUpdateTracker.updateTracker`, `DataPlatformUserAccount.update` and the instance `touch`/`updateAccount` setters.
- `equals`, `hashCode` and `toString` are not modelled; datatype equality stands in for `equals`.
- DataSource, GeneralSequenceNumber, DataPlatformProvider and DataPlatformUserAccountProvider are not part of this model.
- CmdLineTool: argument parsing, output and the other sub-commands are not modelled; only the `create` get-or-create rule is.
- UpdateTrackers.GetAllUnfinishedTracker: returns a set, while the Java returns a list in the database's order. The contract states membership only.
- UpdateTrackers.GetAllLatestFinishedTrackers: the order among trackers with equal end times is left open, as the query leaves it.
- EsiTokenManager.ProcessTokenCallback: its own contract covers the failure paths. The two success paths are stated by CallbackReauthenticates and CallbackCreatesToken.
