# Verification of statnive-live's durability, token and cache state machines

statnive-live is a self-hosted analytics server. This project models the parts of it that keep state across failures and time, and proves what they keep.

**Ingest pipeline.** Handlers queue events; the group syncer appends them to a write-ahead log, syncs once per batch, answers the handlers and forwards envelopes; the consumer batches envelopes into ClickHouse and acknowledges the log; a size cap may truncate the log; a boot replays it. `Pipeline` states this as a machine of single steps in every interleaving, with crashes and reboots: the log has a durable prefix, and a crash keeps some prefix that contains it. `Loss` and `GivenUp` prove what happens to every confirmed event over all runs. The loops themselves are classes (`Wal.WalWriter`, `GroupCommit.GroupSyncer`, `Consumer.Consumer`, `Replay`), and `Refinement` and `BootRun` prove that the flush loops, the consumer's flush and the boot replay are runs of the machine's steps.

**Authorization server.** Codes and refresh tokens live in append-only tables read through FINAL (`VersionedTable`). `OAuthStore` is the store over such tables, `OAuthRuns` its guarantees over every run with any pattern of failed reads and inserts, `Consent` and `Lineage` the path of the consented sites to the resource server.

**Caches.** `SitesCache`, `TokenCache` and `SessionCache` are the write-through caches together with the stores they front; `Staleness` is the same caches under every interleaving; `SingleFlight` is the query cache with its lock per key, and `SingleFlightValues` where its values come from.

**Limiters, opt-out log, text.** `BurstGuard`, `Lockout` and `Budget` bound tumbling windows over every sliding window, and say exactly what is let through (`BudgetLaws` for the budget); `OptOutLog`, `OptOutRecord` and `OptOut` are the opt-out list down to the bytes of its file; `Utf8` and `Sanitize` the truncation of free text; `Regex`, `Channel` and `ChannelLaws` the attribution ladder.

Environment choices (whether an insert, a write, an fsync or a delivery succeeds, what the clock reads, which entry a map iteration meets first) are parameters. An insert into ClickHouse has three outcomes where it matters: done, refused, or stored but reported as failed.

## Where the code and its comments disagree

- A batch whose insert was given up is not retained in the log, contrary to `internal/ingest/consumer.go:139-144`: the next successful flush acknowledges past it. `Loss.LossAccounting` is what holds in general, `GivenUp.AckLosesExactlyTheGivenUp` says exactly when an acknowledgement loses events, `GivenUp.WitnessOfLoss` is a run that does, and `Loss.NoLoss` is what holds when no flush succeeds after a given-up one of the same boot.
- Reopening the opt-out log does not repair a torn last line (`internal/privacy/suppression.go:59-67`): the first record added afterwards is lost at the next boot although `Add` returned nil. `OptOutLog.FirstRecordSurvivesExactlyAfterBlanks` is the exact condition.
- `Add` accepts a hash whose line is as long as the scanner's buffer or longer, and every later boot then fails (`internal/privacy/suppression.go:87-101`): `OptOut.OverlongFailsEveryBoot`.
- `CurrentIndex` guards against `nextIdx == 0` (`internal/ingest/wal.go:128-140`), which never occurs.
- Disabling a user, or deleting one whose row is gone when the call returns, reports an error whenever the user still has a live session, because the session lookup inside the revocation fails with neither of the two errors it forgives (`internal/auth/store.go:529-538`); the sessions are refused all the same. The deletion is asynchronous (`internal/auth/store.go:342-353`): while the row is still visible the sessions are revoked by rows and success is reported. `SessionCache.WhenTheCascadeReportsSuccess` is the exact condition.
- A session primed into the cache at creation gets a deadline from a clock read after the store answered, so it can be served longer than one TTL after the store stopped answering it (`internal/auth/store.go:719-748`). `Staleness.BoundedStaleness` carries that lag, `Staleness.PrimedEntriesOutliveTheTtl` shows it.
- The same priming does not look at the user's disabled flag or role (`internal/auth/store.go:719-748`), so a login that overlaps with a disabling or a role change is served from the cache for up to one TTL although the store never answered it. `SessionCache.CachedSessions.CreateSession` states exactly when the primed answer is the store's, `SessionCache.DisabledUserIsServed` and `Staleness.UnbackedPrimesAreServed` show the other case.
- While the lockout map is full of counters that may not go, a failure leaves no trace even on an account that is already tracked (`internal/auth/lockout.go:121-133`): `Lockout.Login.Authenticate` states when a failure is recorded, `Lockout.AttemptsAreBounded` what then holds of the attempts, `Lockout.FullMapLimitsNobody` what does not.
- Sanitizing keeps invalid UTF-8 on its fast path and replaces it on the slow one (`internal/ingest/sanitize.go:121-150`): the two agree exactly on valid input.

## Model

| member | source | states |
|---|---|---|
| Loss.LossAccounting | internal/ingest/walgroup.go:271-340 | over every run with crashes and reboots, each event whose handler was told it is durable is in ClickHouse, or held in the durable part of the log, or on record as capped, skipped as corrupt, or given up |
| Loss.NoLoss | internal/ingest/consumer.go:132-170 | if no insert succeeds after a given-up batch of the same boot, the cap never truncates and no entry is damaged, every confirmed event is in ClickHouse or durable after any run, and every boot that completes its replay has all of them in ClickHouse |
| Loss.StepKeeps | internal/ingest/wal.go:237-266 | every step of the protocol keeps the pipeline invariant, which ties each envelope in flight to the log entry under its index |
| GivenUp.AckLosesExactlyTheGivenUp | internal/ingest/consumer.go:138-165 | in every reachable state an acknowledgement drops every given-up event of this boot that the log still holds; with no corrupt entry skipped, it loses an event if and only if such an event is in the log |
| GivenUp.GivenUpThenAckedNeverArrives | internal/ingest/consumer.go:138-165 | such an event never reaches ClickHouse however the run continues |
| GivenUp.WitnessOfLoss | internal/ingest/consumer.go:139-157 | a run without crash, cap or corruption in which a confirmed event ends neither in ClickHouse nor in the log |
| GivenUp.UniqueKeeps | internal/ingest/walgroup.go:207-266 | every step keeps each event at one place between queue, log and batch |
| GivenUp.GoneForever | internal/ingest/consumer.go:139-157 | an event that has left log, queues, batches and ClickHouse stays out of ClickHouse in every continuation |
| Wal.AckRemovesExactly | internal/ingest/wal.go:237-266 | an acknowledgement removes exactly the entries at or below both its index and the last index but one, keeps every other index and content, and never empties the log |
| Wal.CapRemovesAFront | internal/ingest/wal.go:329-359 | the size cap removes at most a thousand entries from the front, leaves at least two, and changes no other |
| Wal.CapRemovesExactly | internal/ingest/wal.go:329-359 | the size cap removes a thousand entries, or all but the last two of a shorter log, and nothing from one of at most two |
| Wal.WithoutKeepsTheRest | internal/ingest/wal.go:237-266 | front truncation leaves every other entry under its index |
| Wal.WalWriter.Open | internal/ingest/wal.go:51-105 | the next index of a reopened log follows its last entry |
| Wal.WalWriter.Append | internal/ingest/wal.go:109-124 | an append adds the event under the next index, or changes nothing when encoding or writing fails |
| Wal.WalWriter.CurrentIndex | internal/ingest/wal.go:128-140 | the index of the last entry, 0 exactly for an empty log |
| Wal.WalWriter.Ack | internal/ingest/wal.go:237-266 | the branches of Ack compute the removal stated by `AckRemovesExactly` unless the truncation fails on disk, and its error cases are exact |
| Wal.WalWriter.Sync | internal/ingest/wal.go:269-273 | a successful sync makes everything written durable, a failed one nothing |
| Wal.WalWriter.EnforceSizeCap | internal/ingest/wal.go:329-359 | the branches of the size cap compute the truncation of `CapRemovesAFront` |
| GroupCommit.FlushAnswersEach | internal/ingest/walgroup.go:298-322 | a flush answers every request of its batch exactly once, in order, whether or not its sync succeeds |
| GroupCommit.EachReplyIsItsOwn | internal/ingest/walgroup.go:298-322 | the i-th reply of a flush is the i-th request's: the sync error if the sync failed, else success with the index assigned exactly when its own append succeeded, else the append error |
| GroupCommit.EachSuccessIsDelivered | internal/ingest/walgroup.go:327-340 | after the replies each event whose append succeeded is sent or, where the race against stop was lost, skipped, in order and nothing else |
| GroupCommit.FlushDisciplined | internal/ingest/walgroup.go:292-340 | no success reply and no downstream envelope of a flush precedes the sync that covers its index |
| GroupCommit.IndexesNameTheirEntries | internal/ingest/walgroup.go:279-293 | every index handed out is the one under which the log holds that event, above everything before the flush, and durable once the flush has synced |
| GroupCommit.StoredAt | internal/ingest/walgroup.go:282-290 | the n-th result's index is the old last index plus the number of successful appends so far |
| GroupCommit.GroupSyncer.AppendEach | internal/ingest/walgroup.go:282-290 | the append loop adds exactly the successful events to the log in order and notes each one's outcome and index |
| GroupCommit.GroupSyncer.AppendBatch | internal/ingest/walgroup.go:279-290 | the same with the results foreseen from the log's last index |
| GroupCommit.GroupSyncer.Flush | internal/ingest/walgroup.go:271-340 | the loops of flush produce exactly the history and log that `EachReplyIsItsOwn`, `EachSuccessIsDelivered` and `IndexesNameTheirEntries` describe, with stop signalled before any delivery or not at all; a failed sync ends the process |
| GroupCommit.GroupSyncer.FlushAll | internal/ingest/walgroup.go:271-340 | a flush answers exactly its batch and keeps the history disciplined |
| GroupCommit.GroupSyncer.Take | internal/ingest/walgroup.go:230-256 | the receive arm keeps the invariant: what was answered plus what is pending is what was taken, in order, pending stays below the batch limit, and the history stays disciplined, even when stop is signalled in the middle of its flush |
| GroupCommit.GroupSyncer.TimerFires | internal/ingest/walgroup.go:257-263 | the timer arm flushes what is pending and keeps the same invariant, stop in the middle included |
| GroupCommit.GroupSyncer.StopArm | internal/ingest/walgroup.go:225-229 | the stop arm flushes what is pending, keeps the invariant and ends the loop, after which no arm can be taken |
| Refinement.FlushIsARun | internal/ingest/walgroup.go:271-340 | whatever appends and sync do, and whenever stop comes once the consumer has returned, the log, confirmations, stop flag and channel a flush leaves are those of a run of protocol steps |
| Refinement.FlushSyncer | internal/ingest/walgroup.go:271-340 | the syncer's own flush method computes the log, stop flag and deliveries of that run, and the events that run confirms are those answered with success |
| BootRun.ReplayIsARun | cmd/statnive-live/main.go:943-995 | a replay that succeeds, with or without its acknowledgement, and one that fails at any entry or insert, are runs of protocol steps to the states `ReplayWal` computes, the failed one cut off by the exit of the process |
| BootRun.ConsumerFlushIsARun | internal/ingest/consumer.go:132-170 | the consumer's flush, given up or inserted with an acknowledgement that works or fails, is a run of protocol steps to the state given by the function its loops are proved against |
| BootRun.FlushConsumer | internal/ingest/consumer.go:132-170 | the consumer's own method computes the log and batch of that run |
| Consumer.Consumer.InsertWithRetry | internal/ingest/consumer.go:89-118 | the batch is inserted once if one of at most four attempts gets through before cancellation, not at all otherwise |
| Consumer.GetsThroughExactly | internal/ingest/consumer.go:89-118 | the insert gets through at once or after one, two or three waits that are not cut short |
| Consumer.Consumer.Flush | internal/ingest/consumer.go:132-170 | a non-empty batch that gets through is inserted and acknowledged through the last received index, one that does not leaves ClickHouse and log alone, and the batch is cleared either way |
| Consumer.Consumer.Add | internal/ingest/consumer.go:175-181 | the batch is full exactly at the row or byte limit |
| Consumer.Consumer.Receive | internal/ingest/consumer.go:191-206 | the batch is tried exactly when the new event fills it to the row or byte limit; the batches tried plus the one in hand stay the received events in order, each within its limits |
| Consumer.Consumer.Tick | internal/ingest/consumer.go:208-210 | the ticker arm tries exactly a non-empty batch, with the same effect |
| Consumer.Consumer.Finish | internal/ingest/consumer.go:217-258 | the last flush tries what is in hand, and the sync after it makes what is left in the log durable if it succeeds |
| Replay.ReadableConcat | internal/ingest/wal.go:149-217 | the readable events of a log in two parts are those of the first, then those of the second |
| Replay.ReplayEntries | internal/ingest/wal.go:149-217 | readable plus corrupt entries are the entries dealt with; a full pass has seen exactly the readable ones in order, an aborted one has inserted the full batches of those before |
| Replay.Sink.Flush | cmd/statnive-live/main.go:954-967 | what was inserted followed by what is held is what was seen, before and after |
| Replay.Sink.OnEvent | cmd/statnive-live/main.go:969-977 | the callback keeps that and inserts full batches only |
| Replay.ReplayWal | cmd/statnive-live/main.go:943-995 | inserts are non-empty and at most a thousand rows; a successful replay inserts exactly the readable entries in index order and truncates, a failed one inserts the full batches of the entries it dealt with and leaves the log alone |
| Replay.IdleRebootReinsertsTheLast | cmd/statnive-live/main.go:984-992 | after a replay that inserted anything exactly the last entry remains, so an idle reboot inserts that one event again if it is readable and nothing else |
| VersionedTable.FinalRowIsHighest | internal/oauthas/store.go:101-118 | FINAL returns a row of the key that no other row outranks, and none only if the key has none |
| VersionedTable.FinalIsLastWrite | internal/oauthas/store.go:120-141 | while versions ascend per key, FINAL reads the last write |
| VersionedTable.AppendWins | internal/oauthas/store.go:141-141 | a row with a fresh version becomes the value of its key and changes no other key |
| VersionedTable.UpdateIsSeenExactlyWhenNotOutranked | internal/oauthas/store.go:120-141 | for any versions, an update is seen exactly when no earlier row of its key outranks it |
| OAuthStore.Store.ConsumeAuthCode | internal/oauthas/store.go:211-258 | over the append-only rows the method is the single-use map function, a failing read and failed inserts included; what that function answers over every run is `OAuthRuns.CodeAnswers` |
| OAuthStore.Store.RevokeFamily | internal/oauthas/store.go:343-389 | the loop revokes exactly the members it reached before the first error, none if reading them fails, all of them if it reports success |
| OAuthStore.Store.RotateRefreshToken | internal/oauthas/store.go:289-338 | over the append-only rows the method is the rotation map function, failing reads and failed inserts included; what that function answers over every run is `OAuthRuns.TokenAnswers` |
| OAuthStore.Store.SaveRefreshToken | internal/oauthas/store.go:264-285 | saving a token is one last write of a live row |
| OAuthStore.Store.SaveAuthCode | internal/oauthas/store.go:192-206 | saving a code is one last write of an unconsumed row |
| OAuthStore.Store.FamilyMembers | internal/oauthas/store.go:343-372 | the scan returns each unrevoked member of the family once |
| OAuthRuns.CodesAreSingleUse | internal/oauthas/store.go:211-258 | over every run a code's grant is yielded at most once, before its expiry, and exactly as saved |
| OAuthRuns.CodeAnswers | internal/oauthas/store.go:211-258 | every answer to a saved code by its history: consumed if it was burnt before, else expired, else granted exactly as saved if the burn succeeds |
| OAuthRuns.ConsumedIsHistory | internal/oauthas/store.go:193-258 | a stored code is consumed exactly when it was burnt |
| OAuthRuns.FamiliesHold | internal/oauthas/store.go:289-338 | in every run all members of a family share one grant and one expiry and at most one is neither rotated nor revoked |
| OAuthRuns.OnlyTheLiveMemberRotates | internal/oauthas/store.go:289-338 | a rotation succeeds only for the live member, presented by its own client before expiry; the successor carries the same token data and is then the only live member |
| OAuthRuns.ReuseKillsTheFamily | internal/oauthas/store.go:300-317 | once a call reported reuse, no member of that family ever rotates again |
| OAuthRuns.TokenAnswers | internal/oauthas/store.go:289-338 | every answer to a presented token by its history: unknown, reported as reuse exactly when it was spent or swept before or another client presents it, expired, or rotated; only failed reads and writes lead elsewhere |
| OAuthRuns.FlagsAreHistory | internal/oauthas/store.go:289-389 | a stored token is marked rotated exactly when it was spent, revoked exactly when a sweep reached it |
| OAuthRuns.ReplayIsReported | internal/oauthas/store.go:317-322 | a token that was rotated once is reported as reuse whenever it is presented again, and its family is dead from then on |
| OAuthRuns.SweptTokensAreReported | internal/oauthas/store.go:317-322 | once reuse was reported, every token of the family is reported whenever it is presented |
| OAuthRuns.TheNewestTokenRotates | internal/oauthas/store.go:289-338 | the newest token of a family of which no token was presented since rotates for its own client before expiry, with a healthy database |
| OAuthRuns.StoredCodesWereSaved | internal/oauthas/store.go:192-206 | every stored code equals one that was saved |
| OAuthRuns.CodesStep | internal/oauthas/store.go:192-258 | one operation adds at most the code it saves and otherwise only marks codes as consumed |
| Consent.ClampedExactly | internal/oauthas/consent.go:153-170 | a site is consented exactly when it was posted as a valid id, is held by the user and lies in the ceiling |
| Consent.ParsedExactly | internal/oauthas/consent.go:234-247 | the parsed ids are exactly the posted decimals that fit 32 bits and are not 0 |
| Consent.PrintedReadsBack | internal/oauthas/consent.go:234-247 | a printed number reads back as itself, and is a site id exactly from 1 to the largest 32-bit number |
| Consent.ClampGoesInOrder | internal/oauthas/consent.go:153-170 | parsing and clamping keep the posted order, repetitions included |
| Consent.ClampSites | internal/oauthas/consent.go:153-170 | the clamp loop computes that set in posted order |
| Consent.ParseSiteIds | internal/oauthas/consent.go:234-247 | the loop computes the parsed ids |
| Consent.ConsentableSites | internal/oauthas/server.go:123-133 | the loop returns the granted sites inside the ceiling, each once |
| Consent.InCeiling | internal/oauthas/server.go:110-118 | the search answers membership in the ceiling |
| Consent.GrantsForToken | cmd/statnive-live/mcp_oauth.go:102-116 | the loop grants exactly the claimed sites the ceiling holds, with the ceiling's roles, and a token without the claim gets the whole ceiling |
| Lineage.EverythingDescendsFromItsConsent | internal/oauthas/token.go:102-226 | every code, refresh token and access token carries unchanged the client, user, scope, audience and sites of one consent, whose sites the user held inside the ceiling |
| Lineage.ResourceServerGrantsExactlyTheConsent | cmd/statnive-live/mcp_oauth.go:102-116 | with the ceiling of the consent the resource server grants exactly the consented sites |
| Lineage.AlwaysLineal | internal/oauthas/consent.go:179-230 | consent, code exchange and refresh all keep that lineage |
| Lineage.ConsentFilesExactly | internal/oauthas/consent.go:153-230 | a consent files a code for exactly the posted sites the user holds inside the ceiling and for exactly what was asked, and nothing when no site is left |
| Lineage.ExchangeIssuesExactly | internal/oauthas/token.go:102-145 | an exchange issues an access token and files a live refresh token of a new family exactly when the code is usable, everything bound to it matches and the database is healthy; a code presented with the wrong binding is burnt all the same |
| Lineage.RefreshIssuesExactly | internal/oauthas/token.go:148-183 | a refresh issues an access token with the token's own grant exactly when the presented token is known, live, unexpired and its client's, and the database is healthy |
| SitesCache.CachedSites.LoadUserSites | internal/auth/cached_sites_store.go:62-92 | for every user not in `off` an answer is the inner store's current grants; it fails only when nothing fresh is cached and the store fails, and anything but a fresh hit takes the user out of `off` |
| SitesCache.CachedSites.Grant | internal/auth/cached_sites_store.go:96-108 | only the user's own entry can become inexact, and it does exactly when the insert was stored but reported failed and changed the grants of a cached user; a success makes it exact again |
| SitesCache.CachedSites.Revoke | internal/auth/cached_sites_store.go:112-122 | the same for revocation, after which a success leaves the site out of the grants |
| TokenCache.InactiveStays | internal/auth/api_token_store.go:161-209 | a token that is revoked, expired or absent stays inactive as time passes |
| TokenCache.ActiveExactly | internal/auth/api_token_store.go:161-209 | a token is found exactly while its row is there, not revoked and not past its expiry |
| TokenCache.TokenStore.LookupActive | internal/auth/api_token_store.go:164-209 | the store answers by its table, with own expiry |
| TokenCache.TokenStore.Create | internal/auth/api_token_store.go:107-155 | minting adds one live row |
| TokenCache.TokenStore.Revoke | internal/auth/api_token_store.go:266-322 | revocation marks exactly the owner's token, if that was stored, and reports success exactly when the token is the owner's and was or is now revoked |
| TokenCache.RevokesExactly | internal/auth/api_token_store.go:266-322 | a stored revocation revokes the token of that id if it is that user's and changes nothing else |
| TokenCache.CachedTokens.LookupActive | internal/auth/cached_api_token_store.go:62-93 | with a monotone clock the answer is the store's at an instant of the call, own expiry included, for every hash not marked as possibly stale |
| TokenCache.CachedTokens.Create | internal/auth/api_token_store.go:107-155 | minting can make stale only a negative entry of the same hash |
| TokenCache.CachedTokens.Revoke | internal/auth/cached_api_token_store.go:97-108 | a successful revocation leaves no entry, so the next lookup sees it; one stored but reported failed can leave only the revoked token's own entry wrong |
| SessionCache.RefusalIsPermanent | internal/auth/store.go:455-524 | a revoked, expired or unknown session stays refused as time passes |
| SessionCache.OpenExactly | internal/auth/store.go:455-524 | a session is open exactly when it is known, neither revoked nor expired, and its user exists, is enabled and still has its role |
| SessionCache.MutatesExactly | internal/auth/store.go:276-361 | each privilege change alters the one thing it is for, of the one user it is for |
| SessionCache.FewerUsersRefuseMore | internal/auth/store.go:455-524 | a refused session stays refused, and a blocking one blocking, when users disappear |
| SessionCache.AuthStore.RevokeSession | internal/auth/store.go:529-571 | a revocation that reports success leaves the session refused |
| SessionCache.AuthStore.RevokeAllUserSessions | internal/auth/store.go:576-618 | on success every session of the user is refused; with a healthy database it fails only if some session blocks at the end and succeeds only if none blocked at the start, also when a deletion becomes visible meanwhile |
| SessionCache.AuthStore.RevokeNext | internal/auth/store.go:605-615 | one turn of that loop: what was refused stays refused when users disappear, and only this session gets a row |
| SessionCache.AuthStore.Mutate | internal/auth/store.go:276-361 | the four privilege changes write the changed user; a deletion is visible at once or pending, and a row written later survives it |
| SessionCache.CachedSessions.LookupSession | internal/auth/store.go:679-715 | a fresh entry answers, otherwise the store, and its answer is cached with a deadline from the earlier clock read |
| SessionCache.CachedSessions.CreateSession | internal/auth/store.go:719-748 | a created session is cached and indexed under its user without a look at the user's state; the entry is the store's own answer if and only if the user is enabled and has the session's role and the session is neither revoked nor expired |
| SessionCache.CachedSessions.RevokeSession | internal/auth/store.go:751-762 | the session leaves the cache whatever the store reports |
| SessionCache.CachedSessions.IndexCovers | internal/auth/store.go:767-780 | in every state that keeps the index invariant the user's index entry covers every cached session of theirs |
| SessionCache.CachedSessions.RevokeAllUserSessions | internal/auth/store.go:767-780 | exactly the user's cached sessions leave the cache |
| SessionCache.CachedSessions.Cascade | internal/auth/store.go:784-828 | when one of the four privilege changes reports success, every earlier session of the user is out of the cache and refused by the store, whether a deletion is visible at once, meanwhile or later; once the change was accepted the cache serves none, whatever is reported |
| SessionCache.WhenTheCascadeReportsSuccess | internal/auth/store.go:529-618 | with a healthy database password and role changes, and deletions not yet visible, always report success; disabling, and deleting visibly at once, do exactly when every session is already revoked or expired, although all are refused |
| SessionCache.DisabledUserIsServed | internal/auth/store.go:719-748 | a session created after its user was disabled is served from the cache while the store refuses it |
| Staleness.BoundedStaleness | internal/auth/store.go:679-748 | under every interleaving an answer served at T was the store's answer at an instant after T minus the TTL, less the lag of a primed entry; or it was primed after T minus the TTL with something the store did not answer when it was read |
| Staleness.RevocationTakesEffectWithinOneTtl | internal/auth/cached_api_token_store.go:62-115 | once the store has stopped giving an answer and nobody primes it, no lookup starting a TTL plus the lag later is served it |
| Staleness.PrimedEntriesOutliveTheTtl | internal/auth/store.go:719-748 | a run in which a primed entry is served longer than that |
| Staleness.UnbackedPrimesAreServed | internal/auth/store.go:719-748 | a run in which an answer the store never gives is primed and served, without any lag |
| Staleness.AlwaysInv | internal/auth/cached_sites_store.go:62-92 | every cached, in-flight or served value was held by the store, or primed against it, recently enough, in every reachable state |
| SingleFlight.SingleLoaderPerKey | internal/cache/lru.go:81-105 | under every interleaving at most one loader runs per key |
| SingleFlight.NoLoadBeforeTheDeadline | internal/cache/lru.go:49-105 | after a value is stored no loader for its key starts before the deadline has passed, unless the key is evicted, purged or stored again |
| SingleFlight.StepKeeps | internal/cache/lru.go:81-105 | every step keeps the lock discipline, and what a caller saw under its lock can only be evicted meanwhile |
| SingleFlightValues.StoredValuesAreLoaded | internal/cache/lru.go:64-73 | under every interleaving a value stored for a key is what the storing call's own loader returned, its deadline the clock at the stamp plus the call's TTL, none without one |
| SingleFlightValues.CachedValuesWereStored | internal/cache/lru.go:64-73 | every entry in the cache was stored so |
| SingleFlightValues.HitsAreFresh | internal/cache/lru.go:49-60 | a hit is a value stored before for that key, judged within its deadline |
| SingleFlightValues.InstantsAreClockReadings | internal/cache/lru.go:49-73 | the instants at which loads start, hits are judged and deadlines computed are readings of the clock |
| SingleFlightValues.CallsReturnWhatTheyFound | internal/cache/lru.go:81-105 | a call returns its hit, or what its own loader returned, failure included |
| SingleFlightValues.StepTells | internal/cache/lru.go:81-105 | every step keeps the calls in progress, the cache and the log in agreement about where values come from |
| SingleFlight.KeyLocks.KeyLock | internal/cache/lru.go:121-138 | a key always gets the same mutex and no two keys share one |
| BurstGuard.AnyMinuteAdmitsTwiceTheCap | internal/ingest/burstguard.go:58-83 | with a monotone clock any half-open minute admits at most twice the cap per visitor |
| BurstGuard.TumblingWindowAdmitsTheCap | internal/ingest/burstguard.go:58-83 | and each tumbling window at most the cap |
| BurstGuard.PassesExactly | internal/ingest/burstguard.go:58-83 | an event passes exactly when it opens a window or fewer than the cap of the visitor's events have passed since the current one opened |
| BurstGuard.Guard.Allow | internal/ingest/burstguard.go:58-83 | the 256 shards decide as one unsharded map would, so visitors never affect each other |
| Lockout.WithDefaults | internal/auth/lockout.go:55-80 | each setting that is not positive gets its default, and the others are left alone |
| Lockout.FailuresAreBounded | internal/auth/lockout.go:84-147 | with check-then-record attempts, any stretch of one decay time lets through at most 2 * (MaxFails + Decay / Lockout) failures in a row per account |
| Lockout.AlwaysAccurate | internal/auth/lockout.go:111-147 | a counter absorbs at most MaxFails + Decay / Lockout failures, each past the threshold having waited out one more lock, and holds every failure since it began |
| Lockout.CountedShapely | internal/auth/lockout.go:135-147 | counting a failure that passed the check keeps the counter's length bound and the spacing of its locks |
| Lockout.LockHolds | internal/auth/lockout.go:84-147 | while a lock is active no attempt is let through and nothing but a success lifts it |
| Lockout.LockEndsExactly | internal/auth/lockout.go:141-146 | the failure that reaches or passes the threshold locks the account for one lockout from then on, no less and no more |
| Lockout.LockedExactly | internal/auth/lockout.go:84-147 | an account is locked exactly within one lockout of its last failure, once the failures in a row that one decay time joins reach the threshold |
| Lockout.CounterIsTheStreak | internal/auth/lockout.go:135-146 | a counter is its streak of failures: their first, their number, and a lock from the threshold on |
| Lockout.FailuresJoinTheStreak | internal/auth/lockout.go:135-140 | failures in a row within one decay time all join one streak |
| Lockout.Tracker.Check | internal/auth/lockout.go:84-105 | refuses exactly within one lockout of the last failure of a streak at or past the threshold, and drops exactly the account's own expired counter |
| Lockout.Tracker.MakeRoom | internal/auth/lockout.go:121-133 | eviction takes only a counter that is neither locked nor fresh, and the map never exceeds its limit |
| Lockout.Tracker.OldCountersMakeRoom | internal/auth/lockout.go:121-127 | a counter whose account has not failed for a decay time and a lockout makes room, however full the map is |
| Lockout.Tracker.Record | internal/auth/lockout.go:111-147 | counts as the tracker that never forgets, whose counters are the streaks of `CounterIsTheStreak`, unless the map is full of counters that may not go; no other account's active lock is touched |
| Lockout.Tracker.Clear | internal/auth/lockout.go:151-157 | a success forgets the account |
| Lockout.Login.Authenticate | internal/auth/handlers.go:122-175 | an active lock refuses a login without a trace; otherwise a wrong password is let through, and leaves its record if and only if the map, as the check left it, has room |
| Lockout.AttemptsAreBounded | internal/auth/handlers.go:122-175 | in any stretch of one decay time the failures in a row that get through are at most 2 * (MaxFails + Decay / Lockout) plus those for which the map had no room, and where every record had room no more than that |
| Lockout.FullMapLimitsNobody | internal/auth/lockout.go:121-133 | once the map is full of fresh counters, an account outside it gets any number of failures through |
| Budget.ScaleCap | internal/mcp/budget.go:51-66 | a scaled cap is off exactly when its base is, and otherwise the product rounded down or 1 |
| Budget.CapsFor | internal/mcp/budget.go:91-104 | each cap is on exactly when its setting is positive, and is that setting for an actor other than the wildcard |
| BudgetLaws.AdmittedExactly | internal/mcp/budget.go:91-125 | a call is admitted exactly when, measured by the events, the calls of its window are below the actor's cap and the tool's own, the rows charged in its window below the row cap, and the lifetime's calls and rows below theirs, for each positive cap |
| BudgetLaws.TurnReads | internal/mcp/budget.go:70-86 | the bucket an event finds reads exactly what was used since its window opened and in the whole life |
| BudgetLaws.ChargeReports | internal/mcp/budget.go:130-139 | a charge reports all rows charged in the window |
| BudgetLaws.NoteReports | internal/mcp/budget.go:144-153 | a note reports the distinct sites touched in the window |
| Budget.AnyMinuteUsesTwiceTheBound | internal/mcp/budget.go:70-139 | any half-open minute admits at most twice the call cap and charges at most twice rowCap - 1 + N * R rows, with at most N calls unfinished and R rows a charge |
| Budget.WindowUsesTheBound | internal/mcp/budget.go:70-139 | one window stays within the call cap and within rowCap - 1 + N * R rows |
| Budget.LifetimeIsBounded | internal/mcp/budget.go:91-139 | lifetime calls never exceed the session cap, lifetime rows by no more than the calls in flight can add |
| Budget.AlwaysInBounds | internal/mcp/budget.go:91-139 | in every run the meters leave room for every call in flight |
| Budget.StepInBounds | internal/mcp/budget.go:91-139 | an admitted call finds room for all its rows, and a charge uses up what its call had reserved |
| Budget.SlackIsReal | internal/mcp/budget.go:130-139 | the row bound is attained |
| Budget.BudgetSet.Reserve | internal/mcp/budget.go:91-125 | admits as the actor's own events decide, by `BudgetLaws.AdmittedExactly`, leaves every other actor alone, and tells a refused caller how long the window lasts |
| Budget.BudgetSet.Charge | internal/mcp/budget.go:130-139 | charges that actor's window and lifetime only |
| Budget.BudgetSet.NoteSite | internal/mcp/budget.go:144-153 | counts distinct sites of the window |
| OptOut.RecoveryIsExact | internal/privacy/suppression.go:76-151 | after any run of Add with failures at any byte and a crash at any byte the fsyncs allow, a boot finds nothing never asked for, and, where the file's last line held nothing but blanks, every acknowledged hash; it overruns the scanner only if a line written does |
| OptOut.OverlongFailsEveryBoot | internal/privacy/suppression.go:87-101 | a record whose line overruns the scanner is acknowledged like any other, and once synced every later boot fails |
| OptOut.CrashCuts | internal/privacy/suppression.go:115-151 | what survives a crash is whole records, at least the synced ones, and a cut of one more |
| OptOut.Replay | internal/privacy/suppression.go:76-102 | the scan loop finds exactly the hashes of the readable lines, for the decoder that reads what Add writes with blanks around it, or fails exactly when a line overruns the scanner |
| OptOut.Scan | internal/privacy/suppression.go:76-102 | the same for any decoder of a line that finds nothing in an empty one |
| OptOut.Open | internal/privacy/suppression.go:41-70 | opening fails exactly when a line overruns the scanner, and otherwise starts from what the file holds |
| OptOut.SuppressionList.Write | internal/privacy/suppression.go:136-142 | a write leaves the whole record or a piece of it behind, and after an error the writer takes no more |
| OptOut.SuppressionList.Sync | internal/privacy/suppression.go:148-152 | only a successful fsync acknowledges the hash, and it covers the whole file |
| OptOut.SuppressionList.Add | internal/privacy/suppression.go:115-151 | for any encoder and decoder that agree on the hash, it succeeds exactly when write and fsync do; then the hash is in the set and the whole file is synced; a failure changes neither the set nor what is synced |
| OptOut.SuppressionList.IsSuppressed | internal/privacy/suppression.go:155-166 | answers by what the boot found and what was acknowledged since |
| OptOutLog.ReadBack | internal/privacy/suppression.go:76-102 | exactly what a boot reads, and whether it overruns the scanner, after any records and a cut of one more were appended to any file |
| OptOutLog.FirstRecordSurvivesExactlyAfterBlanks | internal/privacy/suppression.go:59-67 | a boot succeeds and reads back the first record added to an opened file if and only if the file's last line held nothing but blanks and no line overruns the scanner |
| OptOutRecord.HeldAfterBlanks | internal/privacy/suppression.go:115-131 | a written record, after any blanks, is read back as its hash |
| OptOutRecord.HeldCut | internal/privacy/suppression.go:76-102 | no strict prefix of a record is read, after blanks or not |
| OptOutRecord.WrittenRecordsFit | internal/privacy/suppression.go:115-131 | what Add writes for a plain hash meets everything the log's results ask of a line and its decoder |
| OptOutRecord.HeldGlued | internal/privacy/suppression.go:76-102 | a record, whole or cut, that stands after anything but blanks is not read, nor is what stands before it |
| Utf8.DecodeEncode | internal/ingest/sanitize.go:133-149 | decoding an encoded character gives it back, whatever follows |
| Utf8.EncodeDecode | internal/ingest/sanitize.go:133-149 | the bytes of a decoded character are its encoding |
| Utf8.EncodeRunes | internal/ingest/sanitize.go:133-149 | on valid input encoding the decoded characters is the identity |
| Utf8.RunesEncode | internal/ingest/sanitize.go:133-149 | an encoding is valid and decodes to what was encoded |
| Sanitize.SanitizeFree | internal/ingest/sanitize.go:121-150 | the loop over a growing buffer computes the specified cut on every byte string |
| Sanitize.HasControlChar | internal/ingest/sanitize.go:155-168 | finds exactly the strings with a control byte |
| Sanitize.Idempotent | internal/ingest/sanitize.go:121-150 | the result has at most maxBytes bytes and no control byte, and sanitizing it again changes nothing |
| Sanitize.LongestPrefixOnValidInput | internal/ingest/sanitize.go:121-150 | on valid input the result encodes the longest fitting prefix of the characters that are not control characters |
| Sanitize.FastIsSlow | internal/ingest/sanitize.go:126-128 | the fast path agrees with the slow one on valid input |
| Sanitize.FastDiffersOnInvalidInput | internal/ingest/sanitize.go:126-149 | and on no other |
| Sanitize.CutIsSound | internal/ingest/sanitize.go:130-149 | on every byte string the slow path's result is valid UTF-8, clean and within bounds |
| Regex.PaidFindsSubstrings | internal/enrich/channel.go:65-71 | the unanchored paid expression is a test for the substrings cp, ppc, retargeting and paid |
| Regex.ShoppingFinds | internal/enrich/channel.go:65-71 | the shopping expression finds shopping, or shop with no letter other than e before it |
| Channel.Classify | internal/enrich/channel.go:213-247 | the result is the pure priority choice on the normalized visit, and everything is Direct before a database is loaded |
| Channel.Ladder | internal/enrich/channel.go:213-247 | the loop over context-changing steps equals the pure priority choice |
| Channel.GivenExactlyWhenFirst | internal/enrich/channel.go:231-247 | a label is given if and only if it applies and none of higher precedence does |
| Channel.CrossNetworkExactly | internal/enrich/channel.go:281-287 | Cross-network holds exactly when the campaign contains the token |
| Channel.BelowStepEightIsUnpaid | internal/enrich/channel.go:351-471 | any label past step 8, Direct included, implies a medium with none of the paid substrings |
| Channel.PaidLabelsArePaid | internal/enrich/channel.go:298-357 | a paid label implies a paid medium or a search click id |
| ChannelLaws.UntaggedVisits | internal/enrich/channel.go:281-471 | a visit without tags is called by the first table that lists its host, and Direct if none does |
| ChannelLaws.TaggedVisits | internal/enrich/channel.go:281-471 | a tagged unpaid visit without a referrer is called by its medium and source tokens, in this order, and Direct without any |
| ChannelLaws.PaidVisits | internal/enrich/channel.go:298-357 | paid traffic is called by shopping, then by the table that lists its host, then as display, then as other paid |
| ChannelLaws.ClickIdsArePaidSearch | internal/enrich/channel.go:307-321 | a search visit with its engine's click id is paid search whatever its medium, unless cross-network or paid shopping |
| ChannelLaws.OrganicHosts | internal/enrich/channel.go:360-393 | an unpaid visit from a shop, social or video host is organic of that kind, whatever its source |
| Channel.Context.Step | internal/enrich/channel.go:281-471 | each step decides exactly for the labels it stands for, given the predicates of step 2 |
| Channel.Normalize | internal/enrich/channel.go:251-278 | the source name is the exact domain's, else the one at the least index whose suffix the host ends in, else empty, for the host without one leading www. |
| Channel.OneDescription | internal/enrich/channel.go:251-278 | that determines the normalized visit |

## Left out

- Liveness on shutdown: requests the syncer's loop never took are not claimed for; waiting, timeouts and the channels' capacities are nondeterminism of the machine.
- The fsync ring and percentile of `Stats` (`internal/ingest/walgroup.go:345-393`): it would add only an easy member.
- ClickHouse, the segmented log library, the LRU library: each appears by the contract assumed of it. Truncation is valid only from the first to the last index; a nil `Sync` makes everything written durable; an event insert that fails adds nothing; eviction may strike any entry at any time. Losing all unsynced entries of a never-truncated log restarts its indexes at 1.
- The measured size of the log directory and the decision of the size cap are parameters; the machine lets the cap fire at any time.
- The stop signal reaches the syncer only after the consumer has returned, as the deferred `Close` in `cmd/statnive-live/main.go:350` and the wait at `cmd/statnive-live/main.go:814` arrange it; other shutdown orders are not modelled.
- Select loops are modelled one method per arm, so the fairness of the choice between arms is not captured. `AppendAndWait` is the `Enqueue` and `Reply` steps of the machine, in which a handler may not hear its reply.
- Replay.ReplayWal: entries the callback never reached because of an earlier error are not claimed for; the next boot replays them.
- Cryptography: hashes are injective on the values used, fresh random codes, tokens and families are ones the tables have not seen, PKCE is one boolean, and JWT bytes, signatures and claim validation are not part of this model.
- The HTTP side of the token, consent and login handlers, audit, metrics, templates and configuration loading. `Lineage` models the handlers on values: their writes to the store are the store operations, and their responses are the claims recorded.
- Lineage.EverythingDescendsFromItsConsent: an exchange is one step; another request between its consuming a code and its saving a refresh token is not interleaved.
- OAuthStore.Store.RotateRefreshToken: versions start ahead of every stored row, as a clock that does not run backwards across restarts gives them; what a backward clock does to one update is `VersionedTable.UpdateIsSeenExactlyWhenNotOutranked`.
- `cloneGrants` and returned maps: grants are values here, so aliasing between callers is not captured.
- SessionCache.CachedSessions.CreateSession: the store's clock, the user row and the new session are read at one instant here; interleavings are those of `Staleness`.
- SessionCache.CachedSessions.Cascade: no permanence is claimed across changing a role back, because role drift makes `RevokeSession` write no row.
- TokenCache.CachedTokens.LookupActive: a hash looked up before its creation, or one whose revocation was stored but reported failed, may be answered from its old entry until that expires; those hashes are the set `off`.
- Lockout.Tracker.Record: keys are taken after trimming and lower-casing, which is not modelled.
- Lockout.AttemptsAreBounded: attempts on an account are sequential; interleaved attempts that all passed the check before the first record are outside the bound.
- Budget.BudgetSet.Reserve: one clock reading stands for the several of one call; the wildcard factor is a real number, not a float; an actor is the wildcard exactly when its key is `t:0` (`internal/mcp/auth.go:59-75`).
- OptOut.SuppressionList.Add: the encoder and decoder of JSON are parameters that must agree on the hash (`OptOutLog.Fit`), as the library's do for valid UTF-8; `OptOutRecord` shows one concrete pair that does, for hashes of printable characters JSON does not escape, which the "h:" and hex form demanded of callers satisfies. Its decoder takes the spelling Add writes with blanks around it, not every JSON spelling of the same object. The file found at boot is taken to be on disk, and a failed fsync is taken to promise nothing but to be made good by a later successful one.
- `ValidateAndSanitize` beyond the free-text fields: anchored patterns and limits that would only add easy members.
- Channel.Normalize: trimming, lower-casing and the host parser are parameters; loading `sources.yaml` is not modelled, a database is any set of tables.
- SingleFlight.NoLoadBeforeTheDeadline: `Set` is called only inside `Wrap`, as in the code base; the library's own one-year limit is an eviction.
- Dashboards, MCP tools, geo lookup, user-agent parsing, TLS reload, alert bands: thin wrappers or one-branch facts.
