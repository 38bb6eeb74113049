# GeoTagger: verified protocol model

GeoTagger answers authenticated IP lookups from two MaxMind databases, keeps its API credentials in a replicated
NATS key-value bucket, and writes one durable audit record per request. This project models the four protocols
behind that and proves properties of their runs: all interleavings, failures and crashes, not single calls.

| modules | what they model |
|---|---|
| `KeyRecords`, `CredentialLog`, `CredentialProtocol`, `KeyStore` | credentials as a revisioned log written by compare-and-set from any number of replicas |
| `Verifier`, `WatchSync`, `Replicas`, `DrainedWatch`, `CatchUp`, `RevocationSpread`, `AdminRefresh`, `AdminKeys`, `CredentialTokens` | the bearer verifier, the watch loop that feeds it, and the admin server's second, non-atomic writer |
| `HttpApi`, `StreamContract`, `ClickHouse`, `Worker`, `AuditPipeline`, `Insertions`, `ExactlyOnce` | a request with its audit event, the stream's safety contract, the batching worker, and the whole pipeline |
| `ReleaseNames`, `Updater`, `Generations`, `ReaderLock` | the crash-safe database publisher and the coherent, reloadable pair of readers |
| `CacheControl`, `AccessKeys`, `AccessVerifier` | the Cloudflare Access token verifier with its signing-key cache |
| `Common`, `Text`, `Encoding` | Go's string functions, hex (section 8 of RFC 4648) and base64url (section 5 of RFC 4648) |

## How to read it

A protocol is a `State` and a function `Apply` (or `Step`) from a state and an event to the next state. An event that
is not enabled changes nothing, so a run is *any* list of events and a theorem over all lists is a theorem over all
interleavings. `Inv` is the inductive invariant; the theorems stand under "theorems over every run".

The objects of the Go code that update their fields are classes whose methods are proved equal to those steps:
`KeyStore.Store` to the log operations, `WatchSync.SyncLoop` to `WatchSync.Step`, `Worker.AuditWorker` (with its two
reused slices) to `Worker.Step`, `HttpApi.ApiServer` to the verdict functions, `AccessVerifier.Verifier` to
`AccessKeys.Apply`. `Updater.Disk` takes an oracle that lets every system call succeed, fail, or kill the process.

## Assumptions

* A bucket update succeeds iff the newest revision of the key is the one given, a bucket create iff the key has no
  live entry; either may be applied with its reply lost. A watch delivers the log in order and may skip entries
  superseded before it started.
* The work-queue stream (no age limit, new messages discarded when full) drops a message only on an ACK; it may
  redeliver any message any number of times.
* Renames and symlink replacements are atomic, and a rename onto an existing directory is refused; updater runs do not
  overlap. Only where a theorem says so does their clock increase strictly.
* One goroutine reloads the readers; the read-write lock excludes a swap while a lookup is inside.
* The digest is an arbitrary function, injective on the minted secrets only where a theorem says so. A secret that was
  already minted is never drawn again. The event encoder's output has no newline.
* The Go monotonic clock does not run backwards within a process.

## Limits found

Properties that fail for some inputs, each with the condition under which the code has it.

* A revocation delivered to a replica is final there if and only if the delivery replaces the verifier's map (or the
  verifier holds no unrevoked copy anyway) and no refresh in flight can bring a copy back
  (`RevocationSpread.RevocationHoldsIff`). It fails in two ways. An admin request that read the key before the
  revocation and installs its list afterwards makes the copy usable again (`StaleCopyAuthenticatesAgain`, from every
  such state; `StaleRefreshRevivesARevokedKey`, a run from a bucket with one key). And while the watch loop holds an
  id that is static on this replica, every install is refused, so the revoked key goes on authenticating while the
  replica reports itself unhealthy (`CollisionBlocksRevocation`).
* A drained, healthy replica agrees with the store at an id if and only if the id's newest entry is not malformed
  (`DrainedWatch.DrainedVerifierEqualsStore`); `WatchSync.HealthCanHideAMalformedKey` is a run that is healthy and
  disagrees.
* A revocation lasts if and only if no operator deletes the key afterwards (`CredentialLog.RevocationLastsIff`);
  `DeletionReopensAnID` is the deletion that reopens an id.
* An updater run without faults leaves `current` complete if and only if its release name is taken, and then it stops,
  or fewer than three releases sort above the new one (`Updater.UpdateBundle`); otherwise `current` ends up naming
  what the run has just pruned. In terms of the clock: fewer than three releases with a later stamp, or an equal one
  and a greater suffix (`ReleaseNames.RetainedIffFewLater`), which an increasing clock guarantees
  (`Updater.IncreasingClockIsSafe`).
* Rows are stored at least once, not exactly once (`AuditPipeline.RowsMayRepeat`, a run from the first request on;
  `CrashMayRepeatARow` and `LostAckMayRepeatARow`, from every state that still has the message).
  The number of rows of a message is final, in every continuation, if and only if it has left the stream and no worker
  has it in its batch, or in its channel while running (`Insertions.CopiesAreFinalIff`, and over all states
  `NeverInsertedIff`); until then a row may repeat. Every message is stored once, through any retries, in runs where
  no insert is left in doubt, no acknowledgement is lost, and a message is redelivered only when no worker holds it
  and no acknowledgement of it is on its way (`ExactlyOnce.OrderlyRunsStoreOnce`).
* A snapshot of a flipping link, all targets present, succeeds if and only if one of its attempts resolves both paths
  under the same link (`Generations.SnapshotSucceedsIff`). Three flips always leave such an attempt
  (`ThreeFlipsAreSurvived`), four need not (`FourFlipsCanDefeat`).
* A withdrawn signing key is trusted until its cache entry expires (`AccessKeys.UnexpiredKeyOutlivesItsWithdrawal`);
  nothing else separates the cache from a verifier that always fetches (`CacheRefinesFreshFetch`).
* A `max-age` too large for a 64-bit int is ignored rather than capped, so the default of one hour applies instead of
  six (`CacheControl.HeaderChoosesLifetime`).

A run that dies right after making its staging directory leaves it behind for good: no later run or rollback removes
anything that is not a release (`Updater.CrashLeavesStaging`).

## Model

| member | source | states |
|---|---|---|
| Text.SplitInvertsJoin | internal/auth/tokens.go:47-52 | splitting a printed list at its separator returns exactly the parts, for all parts free of the separator |
| Text.CutAtFirst | internal/auth/tokens.go:110-113 | the token is cut at its first dot: everything after it, dots included, is the secret |
| Text.SpacesAre | internal/auth/tokens.go:109-109 | what is trimmed are exactly the 25 characters of Unicode's White_Space property |
| Encoding.HexRoundTrip | internal/auth/tokens.go:174-182 | decoding inverts hex encoding for every byte string |
| Encoding.HexText | internal/auth/tokens.go:174-182 | each byte is printed as two lower-case hex digits, the higher half first |
| Encoding.HexDecodesIff | internal/auth/tokens.go:174-182 | exactly the texts made of pairs of hex digits decode, in either letter case |
| Encoding.UrlEncodeInjective | internal/keystore/nats.go:393-402 | different random bytes give different secrets |
| Encoding.UrlText | internal/keystore/nats.go:393-402 | each letter is the base64url alphabet's for its six bits of the 24-bit groups (sections 4 and 5 of RFC 4648) |
| Encoding.UrlEncodeAlphabet | internal/keystore/nats.go:393-402 | a secret holds letters, digits, `-` and `_` only: no dot, no whitespace |
| KeyRecords.DecodePayload | internal/keystore/nats.go:369-391 | a decoded record has the id of its key, a valid id and a digest that is 64 hex digits |
| KeyRecords.DigestOfDecodes | internal/keystore/nats.go:393-402 | every digest the store prints passes its own validation and decodes back to the hash |
| CredentialLog.RevocationIsFinal | internal/keystore/nats.go:220-245 | in a log of legitimate writes no entry ever follows a revocation of its key |
| CredentialLog.RevokedStaysCurrent | internal/keystore/nats.go:220-245 | a revoked record is its id's current record for good: same time, reason and digest |
| CredentialLog.IdentityIsImmutable | internal/keystore/nats.go:156-245 | between any two entries of a key, id, metadata, creation and expiry times are equal |
| CredentialLog.DeletionReopensAnID | internal/keystore/nats.go:174-186 | the limit of that: right after a delete marker a revoked id can be created again, right after the revocation it cannot |
| CredentialLog.RevocationLastsIff | internal/keystore/nats.go:156-245 | with deletions anywhere in the log, a revocation stays its id's newest entry if and only if the key is not deleted after it |
| CredentialProtocol.EveryRunIsSerial | internal/keystore/nats.go:156-245 | over all interleavings of split reads and compare-and-sets the log is one that atomic operations could have written |
| CredentialProtocol.RevocationIsPermanent | internal/keystore/nats.go:220-245 | once a run commits a revocation, that record stays current under any further events |
| CredentialProtocol.CommitsFormAChain | internal/keystore/nats.go:189-218 | each commit replaced exactly the revision it had read, none is lost, and no two replaced the same one |
| CredentialProtocol.CreateWritesIff | internal/keystore/nats.go:156-187 | a Create begun at any state writes iff its id is valid, the bucket takes the write and no live entry of the id exists by then, whatever other calls did meanwhile; and what it writes is what was asked for |
| CredentialProtocol.RotateWritesIff | internal/keystore/nats.go:189-218 | a Rotate writes iff its id was active at its read and got no entry since; the record is the one read but for a new digest and the rotation time |
| CredentialProtocol.RevokeWritesIff | internal/keystore/nats.go:220-245 | a Revoke writes under the same condition; the record is the one read but for the revocation time and the trimmed reason |
| CredentialProtocol.CallsWriteOnce | internal/keystore/nats.go:156-245 | after its one write, accepted or refused, a call never writes again |
| CredentialProtocol.OnlyTheAuthorsSecretMatches | internal/keystore/nats.go:189-218 | at each entry of a Create or Rotate exactly one of all minted secrets matches: that of the call that wrote it, which no other call holds; an entry of a Revoke matches what the record it replaced matched |
| CredentialProtocol.ExactlyOneSecretMatches | internal/keystore/nats.go:189-245 | at every entry, revoked or not, exactly one minted secret matches: that of one Create or Rotate of the same id |
| KeyStore.Bucket.Get | internal/keystore/nats.go:193-196 | the newest live entry with its revision, or nothing for a missing or deleted key |
| KeyStore.Bucket.Keys | internal/keystore/nats.go:129-136 | every live key once |
| KeyStore.Bucket.Create | internal/keystore/nats.go:174-181 | appends iff no live entry; the reply may be lost |
| KeyStore.Bucket.Update | internal/keystore/nats.go:208-214 | appends iff the newest revision is the one read; the reply may be lost |
| KeyStore.Store.Create | internal/keystore/nats.go:156-187 | writes iff the id is valid and unused when the write arrives, and answers with it iff that was acknowledged; the record is what was asked for, field by field, with the digest of the returned token; keeps the log serial |
| KeyStore.Store.Rotate | internal/keystore/nats.go:189-218 | writes iff the id was active and nobody committed to it since the read; replaces only digest and rotation time; says which failures are which; keeps the log serial |
| KeyStore.Store.Revoke | internal/keystore/nats.go:220-245 | writes under the same condition, and then the revocation at that time for the trimmed reason alone; what it acknowledges is the current record; revoking again succeeds without a write |
| KeyStore.StaleOrLegit | internal/keystore/nats.go:208-214 | a draft made from a read is legitimate whenever its compare-and-set can succeed |
| Verifier.ParseStaticKeys | internal/auth/tokens.go:42-72 | the loop computes the key list function, entry by entry, with every error it reports |
| Verifier.PrintedKeysParse | internal/auth/tokens.go:42-72 | the parser inverts a printed `id:digest` list with distinct printable ids |
| Verifier.ParsedKeysArePrintable | internal/auth/tokens.go:42-72 | conversely, whatever parses is a non-empty set of printable ids |
| Verifier.BearerVerifier.ReplaceManaged | internal/auth/tokens.go:74-96 | installs exactly the listed keys iff all ids are acceptable, distinct and not static and all digests decode; otherwise keeps the old map |
| Verifier.BearerVerifier.HasStaticID | internal/auth/tokens.go:98-103 | true of an acceptable id exactly when every list of managed keys that contains it is refused: no managed key may have it |
| Verifier.BearerVerifier.VerifyAuthorization | internal/auth/tokens.go:105-144 | the method decides as the function that AcceptedIff and TokenRoundTrip are about |
| Verifier.AcceptedIff | internal/auth/tokens.go:105-144 | a header is accepted as an id iff it presents `id.secret` for that id and the secret matches its active managed key, or its static key if there is no managed one |
| Verifier.TokenRoundTrip | internal/auth/tokens.go:105-144 | every issued token, with any whitespace around it, authenticates as exactly its id iff its record is active and holds its digest |
| Verifier.TokenIsPresented | internal/keystore/nats.go:393-402 | a bearer header (section 2.1 of RFC 6750) with an issued token presents exactly that id and secret |
| Verifier.BearerVerifier.Counts | internal/auth/tokens.go:146-162 | active, revoked and expired partition the managed keys and count exactly the keys of each status |
| Verifier.ProjectionUnique | internal/auth/tokens.go:74-96 | a map that projects a list is determined by the list |
| Verifier.OrderDoesNotMatter | internal/auth/tokens.go:74-96 | two lists of the same keys in different orders install the same map |
| WatchSync.SyncLoop.Apply | internal/keystore/nats.go:267-281 | listing the map in any order and replacing the verifier's keys is the install step; it succeeds iff no id is static |
| WatchSync.SyncLoop.Handle | internal/keystore/nats.go:287-327 | the turns of the select loop that take no entry are the machine's steps |
| WatchSync.SyncLoop.HandleMarker | internal/keystore/nats.go:317-328 | the initial marker installs the snapshot and sends the one startup result |
| WatchSync.SyncLoop.Take | internal/keystore/nats.go:329-344 | a delete drops the key, a decodable entry replaces its record, a malformed one leaves the map alone |
| WatchSync.SyncLoop.HandleUpdate | internal/keystore/nats.go:329-350 | an entry is absorbed and, after the marker, installed at once; a malformed one before the marker ends the loop |
| WatchSync.OneStartupResult | internal/keystore/nats.go:250-354 | at most one startup result is ever sent and exactly one by the time the loop returns, so a channel of capacity one never blocks it |
| WatchSync.SuccessMeansSnapshotInstalled | internal/keystore/nats.go:317-328 | a nil result means that every entry so far decoded, none collides, and the verifier holds their whole projection |
| WatchSync.HealthMeansInstalled | internal/keystore/nats.go:111-116 | health implies a running loop whose last install succeeded on its current map |
| WatchSync.ReturnIsFinal | internal/keystore/nats.go:250-354 | after the loop returns it is never healthy again and sends nothing more |
| WatchSync.WatchRefinesTheLog | internal/keystore/nats.go:262-351 | between admin refreshes the verifier holds, key by key, exactly what the consumed prefix of the log says |
| WatchSync.ReplayAgreesIff | internal/keystore/nats.go:329-344 | replay agrees with the store at a key iff the key's newest entry is not malformed |
| WatchSync.HealthCanHideAMalformedKey | internal/keystore/nats.go:330-348 | the limit of health: a run that is healthy with a live key the verifier does not know |
| DrainedWatch.DrainedWatchEqualsStore | internal/keystore/nats.go:262-351 | the same for the loop's own map, healthy or not, whatever admin refreshes did to the verifier |
| DrainedWatch.DrainedVerifierEqualsStore | internal/keystore/nats.go:262-351 | in every run, the verifier of a drained, healthy replica agrees with the store at an id if and only if the id's newest entry is not malformed, although superseded entries were skipped |
| DrainedWatch.DrainedVerifierEqualsSerialStore | internal/keystore/nats.go:262-351 | on a log that only Create, Rotate and Revoke wrote, a drained, healthy replica agrees with the store at every id |
| CatchUp.SnapshotCatchesUp | internal/keystore/nats.go:250-328 | from every log that only Create, Rotate and Revoke wrote, without static ids, a starting replica can become healthy with a verifier equal to the store, sent each key at most once |
| CatchUp.CommitIsFollowed | internal/keystore/nats.go:329-350 | in any run, an up-to-date replica is up to date again as soon as the next commit is delivered to it |
| CatchUp.RefreshEqualsStore | internal/adminhttp/server.go:289-302 | an undisturbed refresh on such a log leaves the verifier equal to the store, whatever it was before |
| CatchUp.FailedRefreshNeverInstalls | internal/keystore/nats.go:129-154 | once a read fails or finds a malformed entry, that refresh never installs anything, whatever follows |
| CatchUp.RefreshInstallsOnce | internal/adminhttp/server.go:289-302 | a refresh that has installed its list never installs it again |
| CatchUp.RefreshesListLiveKeys | internal/keystore/nats.go:129-136 | a refresh begins only with the keys that are live at that moment |
| Replicas.VerifierHoldsCommittedRecords | internal/adminhttp/server.go:289-302 | with watch and admin refresh both writing, every managed entry is a record the store once committed for that id |
| Replicas.AcceptedMeansOnceCommitted | internal/auth/tokens.go:105-144 | an accepted managed token matched a committed, unrevoked digest of its id whose expiry has not passed |
| RevocationSpread.RevocationTakesHold | internal/keystore/nats.go:329-350 | under the condition of RevocationHoldsIff, and for an id that is not static, no header at any time authenticates as the id after the delivery, whatever follows |
| RevocationSpread.RevocationHoldsIff | internal/keystore/nats.go:329-350 | over all states: a delivered revocation is never undone by any continuation if and only if the verifier's map is replaced or holds no unrevoked copy, and no refresh in flight can bring one back |
| RevocationSpread.StaleCopyAuthenticatesAgain | internal/adminhttp/server.go:289-302 | from every state in which a refresh can bring a copy back, it finishes and the copy authenticates again by its secret |
| RevocationSpread.CollisionBlocksRevocation | internal/auth/tokens.go:74-96 | while the loop holds a static id, delivering a revocation changes no answer at all, and the replica reports unhealthy |
| RevocationSpread.StaleRefreshRevivesARevokedKey | internal/adminhttp/server.go:289-302 | a reachable run of that kind, from a bucket with one key: the replica is drained and healthy, and the revoked key authenticates again |
| AdminRefresh.List | internal/keystore/nats.go:129-154 | though the log moves between the reads, each record was current at some moment of the call, none is listed twice, and no key live throughout is missing; a serial log read without failure gives no error |
| AdminRefresh.RefreshVerifier | internal/adminhttp/server.go:289-302 | installs every key live throughout the call, each as it was at some moment of it, and nothing else; on any failure the verifier keeps what it had |
| AdminRefresh.SerialRefreshIsComplete | internal/adminhttp/server.go:289-302 | on a log only Create, Rotate and Revoke wrote, a refresh misses no key that was live when it began |
| AdminKeys.AdminServer.CreateKey | internal/adminhttp/server.go:187-225 | says exactly which requests are invalid, which ids reserved before anything is written, and which creations stored, with every field; answered without a warning and not overtaken, the returned token authenticates here exactly until the expiry asked for |
| AdminKeys.AdminServer.RotateKey | internal/adminhttp/server.go:227-251 | invalid iff the id is; stored iff it was active, unmoved and acknowledged; without a warning and not overtaken, the new record is installed here and its token authenticates exactly until its expiry |
| AdminKeys.AdminServer.RevokeKey | internal/adminhttp/server.go:253-287 | invalid iff the id is; stored iff a record is current that is already revoked, or unmoved and acknowledged, and then revoked at that time for the trimmed reason; no warning when the listing is smooth; and then, on a log only these operations wrote, no header authenticates as the id here any more |
| CredentialTokens.OnlyTheLatestTokenWorks | internal/keystore/nats.go:189-245 | on a verifier that holds an id's current record, of all tokens ever minted for the id exactly that of the latest commit authenticates, and none after a revocation |
| CredentialTokens.ReplicaAcceptsOnlyTheLatestToken | internal/keystore/nats.go:262-351 | the same of every drained, healthy replica, in every run of its watch and its admin refreshes |
| CredentialTokens.CreatedTokenWorksUntilExpiry | internal/keystore/nats.go:156-187 | from a Create to the answer of a drained, healthy replica, whatever happens in between: its token authenticates at a time iff that is before the expiry asked for, if any, and nobody rotated or revoked the key since |
| HttpApi.ResponseMatchesEvent | internal/httpapi/server.go:214-224 | the response has its event's status unless a 200, 404 or 500 outcome could not be audited, then 503; 200 iff a success event was accepted |
| HttpApi.EveryRequestHasItsAnswer | internal/httpapi/server.go:137-312 | for every request and route, the status, the payload and the event of each case: no caller, refused target, failed, absent or found lookup, audited or not |
| HttpApi.AddressIsAuditedAsConfigured | internal/audit/event.go:25-36 | an event is about the address looked up or refused, none without a caller; its field is the MAC of the text in hmac mode, the text in raw mode, and empty without an address or in omit mode |
| HttpApi.HmacHidesTheAddress | internal/audit/event.go:25-36 | in hmac mode requests about addresses of equal MAC, answered alike, give equal events: nothing else of the address is in them |
| HttpApi.UnauthorizedCarriesNoIP | internal/httpapi/server.go:226-237 | a request is audited as unauthorized iff it has no accepted caller, and then without an address; in omit mode no event has one |
| HttpApi.SuccessIsPermitted | internal/httpapi/server.go:269-283 | only an address that was parsed from the request and is permitted is looked up |
| HttpApi.AddressesAreVetted | internal/httpapi/server.go:412-414 | an address the request yields is looked up iff private addresses are allowed or it is public (global unicast, not private, loopback or link-local), and otherwise refused as that address |
| HttpApi.EventNamesTheAnsweringPair | internal/httpapi/server.go:403-410 | `ok` and `not_found` events name the pair the lookup result carries, and are independent of what is installed at publishing if and only if it carries one |
| HttpApi.FirstHopCounts | internal/httpapi/server.go:348-376 | of a forwarded-for list, or of a single address, the first hop counts |
| HttpApi.ApiServer.PublishAudit | internal/httpapi/server.go:382-401 | exactly one publish attempt, of exactly the event the outcome calls for |
| HttpApi.ApiServer.Authenticate | internal/httpapi/server.go:226-237 | either a caller and no effect, or one audited 401 |
| HttpApi.ApiServer.ParseIP | internal/httpapi/server.go:269-283 | either a permitted address and no effect, or one audited refusal |
| HttpApi.ApiServer.IPFromJSON | internal/httpapi/server.go:239-267 | an oversized body, an unreadable, malformed or trailing one, and an address that is not parsed or not permitted end in an audited refusal; otherwise nothing is written |
| HttpApi.ApiServer.PerformLookup | internal/httpapi/server.go:285-312 | found, not found and failed lookups end as the verdict says, with failures answered only after the publish |
| HttpApi.ApiServer.FullLookupFor | internal/httpapi/server.go:214-224 | the full answer is written only once its event was accepted, otherwise 503 |
| HttpApi.ApiServer.HandleCountry | internal/httpapi/server.go:137-163 | one publish attempt and one response, those of the verdict |
| HttpApi.ApiServer.HandleLookupPost | internal/httpapi/server.go:165-175 | one publish attempt and one response, those of the verdict |
| HttpApi.ApiServer.HandleLookupGet | internal/httpapi/server.go:177-193 | one publish attempt and one response, those of the verdict |
| HttpApi.ApiServer.HandleMe | internal/httpapi/server.go:195-212 | one publish attempt and one response, those of the verdict |
| HttpApi.ApiServer.FindClientIP | internal/httpapi/server.go:348-376 | the connecting-IP header, then the first forwarded address, then the peer |
| HttpApi.ApiServer.Serve | internal/httpapi/server.go:137-312 | on all four routes exactly one publish attempt and exactly one response |
| StreamContract.Reconcile | internal/natsaudit/nats.go:90-123 | repairs every mutable setting, keeps the others, and reports a change iff the contract was not met |
| StreamContract.EnsureAuditStream | internal/natsaudit/nats.go:44-130 | its steps and the racing pods' are a run of the machine in which this pod's call returns what the method returns; success means the full contract, and a call without trouble of its own succeeds iff the stream is missing or structurally right, whatever the others do |
| StreamContract.SuccessMeansContract | internal/natsaudit/nats.go:44-130 | with any number of racing pods, once one call returns nil the contract holds in every later state |
| StreamContract.WrongStreamIsRefused | internal/natsaudit/nats.go:78-83 | a stream of another storage or retention is never modified and never reported as good |
| StreamContract.SettledCallsIssueNoUpdate | internal/natsaudit/nats.go:90-130 | a call that starts once the contract holds succeeds without an update |
| ClickHouse.FramingRoundTrip | internal/worker/clickhouse.go:30-41 | splitting the body at newlines returns exactly the rows, in order, iff no row holds a newline |
| ClickHouse.FrameSize | internal/worker/clickhouse.go:30-36 | the precomputed size is the length of the body |
| ClickHouse.Buffer.Grow | internal/worker/clickhouse.go:35-36 | room for the bytes asked for, contents unchanged, and no new array if there was room |
| ClickHouse.Buffer.Write | internal/worker/clickhouse.go:37-40 | appends, and keeps its array while there is room |
| ClickHouse.Table.Insert | internal/worker/clickhouse.go:25-63 | posts the framing of exactly the first n rows; reports success only for a confirmed post; no rows, no request |
| Worker.Conservation | internal/worker/worker.go:58-100 | each delivery is in exactly one of channel, batch, ACKed and Naked; the channel stays within four batches, the batch below its size, empty after return |
| Worker.AckFollowsStorage | internal/worker/worker.go:63-85 | an ACKed message was delivered, and its bytes are in the table |
| Worker.NewlineFreeRun | internal/worker/worker.go:58-100 | in every run of newline-free deliveries every ACKed message's row is stored |
| Worker.FlushStores | internal/worker/worker.go:63-85 | a flush stores whole batches, ACKs the batch if the insert is confirmed and hands the whole batch back otherwise |
| Worker.AuditWorker.OnMessage | internal/worker/worker.go:41-49 | a delivery enters the channel if there is room and is Naked otherwise |
| Worker.AuditWorker.FlushBatch | internal/worker/worker.go:63-85 | with the reused arrays it inserts, ACKs or Naks exactly the current batch |
| Worker.AuditWorker.Turn | internal/worker/worker.go:87-100 | each branch of the select is the machine's step, and leaves the batch below its size |
| Worker.AuditWorker.RunAll | internal/worker/worker.go:58-100 | the loop is the machine's run |
| AuditPipeline.ServingIsRecorded | internal/httpapi/server.go:137-401 | in every state, serving a request adds one answer, and its event as a new message unless the stream refuses it; the status is 200 iff caller and address were accepted, the lookup found what was asked for and the publication was acknowledged |
| AuditPipeline.EveryAnswerStaysAudited | internal/httpapi/server.go:382-401 | in every run, every request answered 200 has a message of its own, shared with no other answer, that holds its success event with its request id; in every later state it is in the stream or its row is in the table |
| AuditPipeline.LeavingTheStreamMeansStored | internal/worker/worker.go:63-85 | a message leaves the stream only by an ACK, and only when its bytes are in the table |
| AuditPipeline.EveryMessageCanGetThrough | internal/worker/worker.go:41-100 | from every state, a fresh worker that is sent a message and inserts it takes it out of the stream and into the table, once, and touches nothing else |
| AuditPipeline.HistoryGrows | internal/worker/worker.go:58-100 | answers, publications and table rows are never taken back |
| AuditPipeline.RowsMayRepeat | internal/worker/clickhouse.go:25-63 | the limit: from an empty pipeline and any first request the stream takes, an insert stored but not confirmed is stored again |
| AuditPipeline.CrashMayRepeatARow | internal/worker/worker.go:58-100 | likewise from every state with the message in the stream: a worker that dies after its insert went through leaves a row that a second delivery repeats |
| AuditPipeline.LostAckMayRepeatARow | internal/worker/worker.go:58-100 | and so does an acknowledgement that is lost after a confirmed insert |
| Insertions.TableIsLedger | internal/worker/worker.go:63-85 | in every run the table gains, row for row, exactly the messages the workers inserted |
| Insertions.NeverInsertedIff | internal/worker/worker.go:58-100 | over all states: no continuation inserts a message if and only if it has left the stream and no worker has it in its batch, or in its channel while running |
| Insertions.CopiesAreFinalIff | internal/worker/worker.go:58-100 | in any run, the number of rows a message has is final in every continuation if and only if it has left the stream and no worker can still insert it |
| ExactlyOnce.OrderlyRunsStoreOnce | internal/worker/worker.go:58-100 | with inserts never left in doubt, no ACK lost, and redelivery only of what no worker holds and no ACK is on its way for: through any rejected inserts, Naks, crashes and retries, no message is in the table twice, and every one that left the stream is in it |
| ReleaseNames.FieldsFollowTime | cmd/mmdb-updater/main.go:118-120 | comparing the printed fields in the order they are printed is comparing the times |
| ReleaseNames.NameTellsTheTime | cmd/mmdb-updater/main.go:118-120 | a release name reads back, position by position, as date, time to the nanosecond and random suffix |
| ReleaseNames.NamesOrderIff | cmd/mmdb-updater/main.go:118-120 | release names of printable stamps sort as the stamps do, whatever their random suffixes |
| ReleaseNames.RankIsCount | cmd/mmdb-updater/main.go:246-270 | the position in the descending list is the number of newer releases |
| ReleaseNames.TailIsNotRetained | cmd/mmdb-updater/main.go:246-270 | the tail that is pruned is exactly what is not among the newest |
| ReleaseNames.NewestIsRetained | cmd/mmdb-updater/main.go:246-270 | the newest release is always retained |
| ReleaseNames.RetainedIffFewLater | cmd/mmdb-updater/main.go:246-270 | a new release is retained exactly when fewer than `keep` others carry a later stamp, or the same one and a greater suffix |
| ReleaseNames.ClockSetBackDropsTheNewRelease | cmd/mmdb-updater/main.go:246-270 | the limit: with enough later-stamped releases on disk a new one is not retained |
| Updater.Disk.Download | cmd/mmdb-updater/main.go:173-244 | success leaves the edition verified; failure and crash touch only the staging directory |
| Updater.SortDescending | cmd/mmdb-updater/main.go:260-260 | the names, each once, newest first |
| Updater.PruneReleases | cmd/mmdb-updater/main.go:246-270 | whatever interrupts it, the newest releases and all other directories are untouched; a complete pass leaves nothing else |
| Updater.PublishRelease | cmd/mmdb-updater/main.go:88-124 | ends without a new release, or with a complete one beside everything that was there; without faults it stops only if the name is taken |
| Updater.ActivateRelease | cmd/mmdb-updater/main.go:125-151 | ends with the old link and nothing removed, or with the new link; a retained release is left intact |
| Updater.UpdateBundle | cmd/mmdb-updater/main.go:88-151 | under the guard, wherever it stops, `current` is the untouched old release or the complete new one, and retained releases are untouched; a fault-free run keeps `current` complete if and only if the guard holds, and otherwise leaves it naming a pruned release |
| Updater.IncreasingClockIsSafe | cmd/mmdb-updater/main.go:118-120 | under an increasing clock every run of any history meets the guard |
| Updater.Operate | cmd/mmdb-updater/main.go:88-151 | a rollback points `current` at a complete release and changes nothing else; a run without faults whose name is new ends with `current` at its release, the newest three retained and no staging directory or temporary link left |
| Updater.Campaign | cmd/mmdb-updater/main.go:88-151 | over any sequence of runs and rollbacks, each failing or crashing at any system call: if every run meets its guard, and so whenever the clock increases, `current` resolves to a complete release; without faults each run adds its release and prunes, and `current` is the last run's |
| Updater.CrashLeavesStaging | cmd/mmdb-updater/main.go:88-151 | a staging directory whose run died right after making it is still there after any later runs and rollbacks |
| Generations.Snapshot | internal/maxmindgeo/maxmind.go:216-235 | the retry loop computes the attempt-by-attempt function |
| Generations.StampFileIff | internal/maxmindgeo/maxmind.go:237-250 | a file is stamped iff it exists where its path resolves and, non-empty, where it is inspected, in a linked or a fixed directory, with the size and time found there |
| Generations.SnapshotIsCoherent | internal/maxmindgeo/maxmind.go:216-235 | any successful snapshot is a pair of the non-empty files asked for, in one directory if both are linked, whatever the link did meanwhile |
| Generations.IncoherenceTakesFlips | internal/maxmindgeo/maxmind.go:216-235 | running out of attempts costs the adversary a flip between the two path resolutions of every attempt |
| Generations.SnapshotSucceedsIff | internal/maxmindgeo/maxmind.go:216-235 | with all targets present, a snapshot succeeds if and only if some attempt resolves both paths under the same link, however often it flips; it fails only by running out of attempts |
| Generations.ThreeFlipsAreSurvived | internal/maxmindgeo/maxmind.go:216-235 | so with all targets present and at most three flips it succeeds |
| Generations.FourFlipsCanDefeat | internal/maxmindgeo/maxmind.go:216-235 | three is the exact bound: four well-placed flips defeat it |
| Generations.StableSnapshot | internal/maxmindgeo/maxmind.go:216-250 | without flips the snapshot is the stamps of the one view there is |
| Generations.OnlyLinkedPairsAreRetried | internal/maxmindgeo/maxmind.go:216-235 | unless both files are linked the first attempt decides the snapshot |
| Generations.MaxMind.Open | internal/maxmindgeo/maxmind.go:78-88 | opens iff the snapshot and both files are good, and then holds a coherent pair |
| Generations.MaxMind.Reload | internal/maxmindgeo/maxmind.go:252-295 | replaces exactly the changed halves and closes what it replaced; on failure nothing changes |
| Generations.MaxMind.ReloadIfChanged | internal/maxmindgeo/maxmind.go:192-209 | keeps the pair coherent under any flips; a changed directory replaces both halves; a failed poll changes nothing |
| Generations.MaxMind.PollTwice | internal/maxmindgeo/maxmind.go:192-209 | with the link at rest one poll installs the current generation, rollbacks included, and the next reports no change |
| ReaderLock.LookupsAreSafeAndPaired | internal/maxmindgeo/maxmind.go:90-143 | no lookup ever touches a closed reader, and each reports a version pair installed together and really used; it fails iff a record did not decode, finds the address iff a record has a country, a city or an AS, and answers with what the records say |
| ReaderLock.VersionIsNotBlank | internal/maxmindgeo/maxmind.go:297-308 | the version of an opened reader is never blank |
| ReaderLock.PublishedEventsNameTheAnsweringPair | internal/httpapi/server.go:403-410 | however many reloads happen between a lookup and its publication, an event is `lookup_error` iff a record did not decode and `ok` iff the address was found (with a country, on the country route), with the country read; `ok` and `not_found` events name exactly the versions of the two readers that answered, a pair installed together; a `lookup_error` event names an installed pair |
| ReaderLock.LookupPublishesWhatItRead | internal/maxmindgeo/maxmind.go:90-143 | from any state and whatever other threads and reloads do in between, a lookup ends in a report of the two records it read, with the pair installed when it entered, and publishing it hands over one event |
| ReaderLock.ReloadInstallsWhatChanged | internal/maxmindgeo/maxmind.go:252-308 | lookups going on around it, a reload installs exactly the databases that changed, under type and build time, closes exactly the readers they replace, and can be followed by the next |
| ReaderLock.UnlockedSwapWouldBreakIt | internal/maxmindgeo/maxmind.go:273-293 | the lock is what ensures it: a swap let through inside a lookup leads it to a closed reader |
| CacheControl.CacheTTL | internal/accessauth/access.go:248-263 | between one second and six hours, one hour if no part asks for a lifetime, otherwise what the first such part asks for |
| CacheControl.AtoiReadsDecimal | internal/accessauth/access.go:254-254 | a printed number is read back iff it fits a 64-bit int |
| CacheControl.AtoiReadsSigns | internal/accessauth/access.go:254-254 | a plus changes nothing, a minus gives the negative number, of which one more fits |
| CacheControl.AtoiRefuses | internal/accessauth/access.go:254-254 | the empty text, a lone sign and anything with another character in it are no numbers |
| CacheControl.HeaderChoosesLifetime | internal/accessauth/access.go:248-263 | `max-age=n`, however padded and after any silent parts, gives n seconds capped at six hours; zero and oversized values are passed over |
| AccessKeys.ParseRsaKey | internal/accessauth/access.go:212-229 | the shift loop yields the big-endian exponent, at least 3 and below 2^32 |
| AccessKeys.BuildKeySet | internal/accessauth/access.go:190-200 | the loop over the document yields its key set |
| AccessKeys.LastUsableEntryWins | internal/accessauth/access.go:190-200 | a kid stands for the last usable entry that carries it, and for none if there is none |
| AccessKeys.AcceptedUnderAPublishedKey | internal/accessauth/access.go:90-210 | with any number of interleaved calls, an accepted token verified under a key the endpoint published for its kid, stored less than six hours before it was chosen or during the call |
| AccessKeys.CacheRefinesFreshFetch | internal/accessauth/access.go:90-210 | with a reachable, stable endpoint no token a fresh fetch would accept is rejected, and any other is accepted only under a key cached before and unexpired |
| AccessKeys.UnexpiredKeyOutlivesItsWithdrawal | internal/accessauth/access.go:146-156 | that exception is real, for every cached unexpired key |
| AccessKeys.CallsEnd | internal/accessauth/access.go:90-166 | a call always has a next step until it decides, and decides within twelve steps and three fetches |
| AccessVerifier.AudienceContains | internal/accessauth/access.go:231-246 | true iff the wanted audience is the one named or among those listed |
| AccessVerifier.AdmittedExactlyInItsWindow | internal/accessauth/access.go:90-128 | a three-part token is admitted iff header and claims pass and the clock is inside the window of its claims widened by 30 seconds on both sides |
| AccessVerifier.ReadReply | internal/accessauth/access.go:168-203 | an answer is usable iff it is a 200 with a readable document of at least one usable key |
| AccessVerifier.Verifier.Refresh | internal/accessauth/access.go:168-210 | one fetch; a usable answer replaces keys and expiry, any other leaves both alone |
| AccessVerifier.Verifier.Key | internal/accessauth/access.go:146-166 | an unexpired cached key is returned without a fetch unless forced, otherwise one refresh decides |
| AccessVerifier.Verifier.CheckSignature | internal/accessauth/access.go:129-143 | at most one forced refresh follows a failed check, none an undecodable signature |
| AccessVerifier.Verifier.Verify | internal/accessauth/access.go:90-144 | an inadmissible token touches nothing; for the others the answer is the machine's and is judged against the always-fetching verifier |

## Left out

- NATS, ClickHouse, MaxMind and HTTP transports, MMDB decoding, gzip and tar, RSA, SHA-256 and HMAC arithmetic: foreign
  calls, kept as parameters or as steps with any outcome.
- JSON: a stored payload is a document or undecodable, a request body and a key document are what decoding yields.
  That re-encoding a record cannot fail, and that times survive it, is taken for granted.
- Real time, tickers and timeouts are events and clock readings; power loss and fsync ordering are not modelled, only
  process crashes.
- Concurrent `ReloadIfChanged` callers and `Close` racing `Watch`: the program runs one watching goroutine.
- The sort at the end of `Store.List`, metrics, configuration, embedded UI, CSRF and header checks, response shaping,
  metadata length checks, single-edition updater mode and edition parsing: easy members.
- On shutdown the last flush inherits the cancelled context, so its insert cannot be confirmed in practice; the model
  allows every outcome there.
- Release names are rendered for years of at most four digits.
- Unbounded integers stand for Go's: expiry times whose nanoseconds leave 64 bits are not modelled.
- AdminKeys.AdminServer.CreateKey: metadata length checks, CSRF, logging and response bodies are not part of it.
- AdminKeys.AdminServer.RevokeKey: the limit of 256 bytes on a reason is not part of it.
- AccessVerifier.Verifier.Verify: models one call at a time; concurrent calls are covered by the machine in AccessKeys.
- HttpApi.ApiServer.FindClientIP: takes the parsed forms of header values and peer address from a parameter.
- Generations.MaxMind.Open: opening and verifying a file are an outcome given from outside.
- Updater.Disk.Download: archive size limits and digest comparison are part of the outcome given from outside.
