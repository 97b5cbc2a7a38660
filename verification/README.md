# Verified models of the kapp core protocols

A Dafny 4.11 project that models the parts of the platform whose correctness spans several calls or
several concurrent actors, and proves what they promise. PostgreSQL appears as atomic guarded updates,
row locks, advisory locks and commit or rollback steps; cryptography, JSON text and timestamp formats
as records of functions with the few facts used about them stated as predicates. Every step system is
total: a step that is not enabled changes nothing, so "for every sequence of steps" is "for every run".

`dafny verify dfyconfig.toml` checks everything.

| file | models |
|---|---|
| `Sessions.dfy`, `SingleSignOn.dfy`, `RefreshRotation.dfy` | the session table, Exchange and Refresh as effect sequences, and all interleavings of logins, refreshes and revocations |
| `KeyRing.dfy`, `KeyRingStore.dfy`, `KeyRingMeaning.dfy`, `KeyRingThreads.dfy` | the copy-on-write key ring, its operations as a caller sees them, its compare-and-swap loops under concurrency, and the signature check |
| `KeyRefresher.dfy`, `KeyInstallation.dfy` | the polling refresher: old tokens keep verifying, and the newest keys are installed |
| `AuditChain.dfy`, `AuditWriters.dfy` | the hash chain and its verifier, and concurrent transactions that append to it |
| `Outbox.dfy` | concurrent drain workers over the event outbox with failures anywhere |
| `RoleClosure.dfy`, `Authorization.dfy`, `PermissionCacheRaces.dfy` | the bounded role walk, the cached evaluator against a plain one, and loads that overlap writes |
| `TextPatch.dfy`, `PatchLayout.dfy`, `PatchMisses.dfy` | anchor insertions into a text, the exact layout they give, and exactly when one fails |
| `PatchPlan.dfy`, `PackPlanners.dfy`, `PackLayouts.dfy` | the plan over a source tree, the ops the planners queue, and where those land |
| `Ledger.dfy`, `BudgetVariance.dfy`, `BudgetReportMeaning.dfy` | grouped actuals with the wildcard bucket, the variance report, and what its rows and grand totals hold |
| `Reencryption.dfy`, `KeyRotation.dfy`, `RotationRaces.dfy` | decoding, resealing and encoding one record, the paging sweep, and the sweep beside other writers |
| `ReplicaRouting.dfy`, `SamplerLifecycle.dfy` | the two-atomics routing decision, and the sampler's start and close |
| `DocHistory.dfy` | document versions under interleaved transactions |
| `ProofOfWork.dfy` | the challenge header codec and the leading-zero-bits check |
| `Common.dfy`, `Ordering.dfy` | options, filtered sequences, string order |

## Where the code does not do what its documentation says

- A refresh refused at the swap is reported as reuse although the token was never consumed when the session
  expires or is revoked between the read and the swap (`ReuseWithoutConsumption`); on a live session
  the report is exact (`ReuseMeansConsumed`).
- A refresh that ends in a database error may have consumed its token: the swap commits and the acknowledgement
  is lost. A retry is then taken for reuse and revokes the session (`RefusedCallInstalledIff`, `ConsumedTokenIsReuse`).
- Exchange commits the session before it signs the tokens, so a failed login can leave a live session behind
  that counts against the cap (`Exchange`).
- The canonical form that writer and verifier are meant to share is not shared by every document: Go prints -0
  where the column stores 0, and hashes 1e400 as raw text, so the verifier rejects an honest log
  (`NegativeZeroIsNotConfirmed`, `VerifierConfirmsIff`). The chain of hashes never forks regardless.
- The audit digest covers neither actor nor target type, and joins its fields without separators
  (`ActorNotCommitted`, `FieldBoundariesNotCommitted`). The head hash commits to the hashed bytes only.
- A refresher whose provider reports no version overwrites a key under the same kid; earlier tokens then survive
  exactly when the new material accepts what the old did (`StampedTokensSurviveIff`, `UnstampedTokensSurviveIff`).
- The refresher promises to put a new version into use at the next tick. When the primary reference is also listed
  as verify-only and its secret changes between the two reads of one tick, the new key never becomes the signing
  key (`ListedPrimaryIsStuck`, for every such setup); in every other setup it does (`NewestKeysAreInstalled`).
- A permission load that overlaps a write can put an outdated set back after the write's invalidation
  (`StaleIffOverlapped`).
- The role walk promises every held role's ancestors within its bound, but the walks share one visited set: a walk
  stops at a role that an earlier one reached near its own bound, so holding one more role can take a role away
  (`ExtraRoleTakesAway`). `MemberIff`, `BoundedUnionIff` and `CompleteIff` say exactly what the expansion holds, when
  it is the promised union and when it is the whole ancestor closure.
- The scaffold says a half-written tree is impossible once validation passed. An op that inserts inside
  another op's anchor defeats that (`OverlapCanMiss`, `MissesIff`). No plan the planners build has such ops
  (`PlannersMakeGoodPlans`), so for them the promise holds. A display name that holds a marker line still
  misplaces an insertion (`NameHoldingAnchor`).
- A comment says the cost centre "*" cannot come from the ledger. It can, and is then counted twice
  (`SentinelCountsTwice`); `WildcardExactIff` gives the exact condition.
- The rotation tool says fields already under the current key are written back unchanged. They are sealed
  again with a new nonce, so a second sweep rewrites exactly the records with ciphertext (`SecondSweepRewrites`).
- The rotation tool re-encodes a record whole once one field changed, so a number that a 64-bit float cannot hold
  is altered, and one out of float range stops the sweep (`BigNumberIsLost`, `SweptReadsSameIff`). A page is read
  without row locks, so a concurrent write can be overwritten (`WriteSurvivesIff`).
- A sampler started after Close has read the sampler fields is never stopped by any Close call
  (`MissedRunsOn`, `QuietAfterCloseIff`).

## Model

| member | source | states |
|---|---|---|
| RefreshRotation.RefreshesFormOneChain | internal/auth/sso.go:307-413 | In every interleaving, a session's installs are one chain that starts at the jti its login stored, each swap consuming exactly what the one before installed; the row holds the chain's tip |
| RefreshRotation.TokenIsSingleUse | internal/auth/sso.go:386-404 | Two granted refreshes that presented the same jti on the same session are the same call |
| RefreshRotation.ConsumedOnce | internal/auth/session.go:251-271 | Two swaps in one session's history that consumed the same jti are one swap |
| RefreshRotation.OnlyCurrentTokenWorks | internal/auth/sso.go:307-413 | From any state, an undisturbed refresh succeeds if and only if the session is live and the presented jti is its current one, and its effect on the table is the serial one |
| RefreshRotation.SerialRowsMeans | internal/auth/sso.go:307-413 | That effect field by field: a live row with the presented jti gets the next one, a readable row with another jti is stamped revoked, every other row stays |
| RefreshRotation.ReuseShutsFamily | internal/auth/sso.go:386-404 | After reuse is seen and the revocation stored, whatever follows, the session stays revoked and nothing is installed on it |
| RefreshRotation.DeadForever | internal/auth/session.go:160-227 | A revoked or expired session never gets another jti, in any continuation, and keeps its first revocation stamp |
| RefreshRotation.RefusedCallInstalledIff | internal/auth/sso.go:386-404 | A call that was not granted installed a jti if and only if its swap committed with the acknowledgement lost; every refusal other than a database error installed nothing |
| RefreshRotation.ConsumedTokenIsReuse | internal/auth/sso.go:377-404 | Presenting a consumed token, whether or not its swap was acknowledged, on a readable session is answered with reuse and revokes the session |
| RefreshRotation.FailedCallCanRetry | internal/auth/sso.go:312-389 | If a call failed without swapping and no other call swapped since its jti was current, that jti is still current and a retry succeeds exactly when the session is live |
| RefreshRotation.ReuseMeansConsumed | internal/auth/sso.go:386-404 | On a live session, a jti that was once installed is refused at the swap if and only if an earlier swap consumed it |
| RefreshRotation.ReuseWithoutConsumption | internal/auth/session.go:251-271 | A concrete run in which an unconsumed current jti is reported as reuse because the session expired in between |
| RefreshRotation.LifetimeIsAbsolute | internal/auth/sso.go:198-267 | However often it is refreshed, no swap happens at or after login time plus lifetime |
| RefreshRotation.ExpiryNeverMoves | internal/auth/session.go:251-271 | No run changes a session's expiry |
| RefreshRotation.InvHolds | internal/auth/sso.go:307-413 | Rows, history, minted jtis and granted calls stay consistent through every run |
| Sessions.PGSessionStore.Create | internal/auth/session.go:107-158 | Succeeds exactly when owner and expiry are given, the tenant is below its cap, the id is new and the database works; the row is there exactly when that holds or only the acknowledgement was lost |
| Sessions.PGSessionStore.Get | internal/auth/session.go:160-190 | Returns the row exactly when it is present, not revoked and not past its expiry |
| Sessions.PGSessionStore.RotateRefresh | internal/auth/session.go:251-271 | Compare-and-swap of the jti: reuse is reported exactly when no live row carries the old jti, and a lost acknowledgement is an error after the swap took effect |
| Sessions.PGSessionStore.RevokeMatching | internal/auth/session.go:192-229 | The statement behind the three revocations: afterwards no session it names is live or readable at any time, first stamps are kept and nothing else in the table moves |
| Sessions.PGSessionStore.Revoke | internal/auth/session.go:192-201 | Stamps the one session unless it is stamped already; every other session stays as it is |
| Sessions.PGSessionStore.RevokeByUser | internal/auth/session.go:205-214 | Stamps every unrevoked session the user has in the tenant; other users and tenants stay as they are |
| Sessions.PGSessionStore.RevokeByTenant | internal/auth/session.go:218-227 | Stamps every unrevoked session of the tenant; other tenants stay as they are |
| Sessions.PGSessionStore.Touch | internal/auth/session.go:231-240 | Moves the last-used time of an unrevoked session and nothing else |
| SingleSignOn.Choose | internal/auth/sso.go:218-227 | The first membership in the preferred tenant, else the first of all |
| SingleSignOn.ChosenMeans | internal/auth/sso.go:218-227 | The chosen membership is in the preferred tenant when any is, with none of it before; the first of all when none is or no tenant is preferred |
| SingleSignOn.Exchange | internal/auth/sso.go:198-267 | Succeeds exactly when the lookups, the insert and both signatures do; a failure leaves the table alone if and only if the row was not inserted, and otherwise a live session without a token holder stays and counts against the cap |
| SingleSignOn.Refresh | internal/auth/sso.go:307-413 | Success exactly when nothing failed and the jti is current on a live session. Both new tokens carry the administrator flag as looked up now, or the presented one when there is no pool, no user or no answer. Reuse is answered exactly for a readable session that is not live with this jti, and stamps it; a failure other than reuse changes nothing unless a committed swap lost its acknowledgement |
| KeyRing.SortStrings | internal/auth/keyring.go:291-297 | The in-place insertion sort yields a sorted permutation |
| KeyRing.All | internal/auth/keyring.go:219-238 | Lists every key exactly once, the primary first and the rest in strictly increasing kid order |
| KeyRing.ListingFromSorted | internal/auth/keyring.go:219-238 | A sorted listing of the other kids after the primary is such a listing |
| KeyRing.VerifySignature | internal/auth/jwt.go:537-571 | Matches exactly when some candidate accepts, though all are tried |
| KeyRing.VerifyToken | internal/auth/jwt.go:505-571 | With a kid only that key decides; without one a token passes exactly when some key in the ring accepts it |
| KeyRing.IssuedTokenVerifies | internal/auth/jwt.go:427-503 | Every token the ring issues passes its own check |
| KeyRingStore.Ring.AddVerifier | internal/auth/keyring.go:97-118 | The retry loop has the effect and answer of the atomic operation: refused exactly for an unusable key, else the key is held under its kid and the primary stays |
| KeyRingStore.Ring.SwapPrimary | internal/auth/keyring.go:135-176 | Likewise: when it succeeds the kid is the primary and the given key, if any, is held under it |
| KeyRingStore.Ring.Remove | internal/auth/keyring.go:178-194 | Likewise: refused exactly for the primary and for unknown kids, else only that kid is gone |
| KeyRingMeaning.SwapPrimaryMeans | internal/auth/keyring.go:135-176 | Exactly when a swap is accepted; afterwards every token issued carries the kid, the given key is the one held, and every other key is kept |
| KeyRingMeaning.AddVerifierMeans | internal/auth/keyring.go:97-118 | Exactly when a key is accepted; afterwards it is held under its kid, the rest are kept, and tokens are issued as before unless it replaces the primary itself |
| KeyRingMeaning.RemoveMeans | internal/auth/keyring.go:178-194 | Exactly when a kid is removed; afterwards no token stamped with it passes, every token stamped otherwise passes as before, and tokens are issued as before |
| KeyRingMeaning.RingHoldsUsableKeys | internal/auth/keyring.go:266-283 | Every ring holds its primary, and each key it holds has its own kid and the material its algorithm needs |
| KeyRingMeaning.IssueMeans | internal/auth/jwt.go:427-503 | A token is issued exactly when the primary has the material, stamped with its kid and signed with it |
| KeyRingMeaning.HmacPassesIff | internal/auth/jwt.go:505-571 | Under HS256 a token passes exactly when a key its header admits computes its signature over its own header and payload |
| KeyRingMeaning.RsaPassesIff | internal/auth/jwt.go:505-571 | Under RS256 exactly when such a key's public half checks it; under any other algorithm none passes |
| KeyRingThreads.RunsAreLinearizable | internal/auth/keyring.go:97-194 | In every interleaving of loads and compare-and-swaps the answers are those of a sequential order, the ring holds that order's result, and each returned operation occurs in it exactly once |
| KeyRingThreads.RealTimeOrderKept | internal/auth/keyring.go:97-194 | An operation that returned before another was invoked precedes it in that order |
| KeyRingThreads.FailuresAreCharged | internal/auth/keyring.go:103-117 | An operation's failed swaps never outnumber the states other operations published since it was invoked |
| KeyRingThreads.PublishedRingsAreValid | internal/auth/keyring.go:79-96 | Every state ever published is a valid ring |
| KeyRingThreads.CallsPersist | internal/auth/keyring.go:97-194 | A returned operation's answer and place in the order never change |
| KeyRefresher.DeriveKidInjective | internal/auth/keyring.go:460-467 | Two kids are equal if and only if the references flatten alike and the versions are equal |
| KeyRefresher.Refresher.CheckOne | internal/auth/keyring.go:397-452 | One poll of one reference does what its specification says; a failed check leaves ring and seen versions alone |
| KeyRefresher.Refresher.RefreshOnce | internal/auth/keyring.go:374-390 | The primary first, the others only if it did not fail, each failure isolated; reports what the primary check reported |
| KeyRefresher.SameKidSameKey | internal/auth/keyring.go:397-467 | With contents fixed per reference and version and references distinct after flattening, a kid determines its key |
| KeyRefresher.CheckExtends | internal/auth/keyring.go:397-452 | A poll only adds keys |
| KeyRefresher.RunExtends | internal/auth/keyring.go:374-452 | Any number of ticks with any provider failures only add keys |
| KeyRefresher.OldTokensKeepVerifying | internal/auth/keyring.go:374-467 | Every token that verifies at some tick, with or without kid, verifies at all later ticks |
| KeyRefresher.IssuedTokensOutliveRotations | internal/auth/jwt.go:427-571 | A token issued at any tick verifies at every later tick |
| KeyRefresher.StampedTokensSurviveIff | internal/auth/keyring.go:397-452 | For any algorithm and any answer of the provider, a check keeps every kid-stamped token if and only if it loads nothing, loads a new kid, or the new key accepts whatever the old one accepted over inputs stamped with it |
| KeyRefresher.UnstampedTokensSurviveIff | internal/auth/keyring.go:397-452 | The same for tokens without a kid, where another key of the ring may accept instead |
| KeyRefresher.OverwrittenSecretLosesToken | internal/auth/keyring.go:397-452 | A literal secret change without a version after which an earlier token fails |
| KeyInstallation.LoadedKeyMeans | internal/auth/keyring.go:411-433 | The key a secret becomes, for each algorithm |
| KeyInstallation.CheckInstalls | internal/auth/keyring.go:397-452 | A usable answer never fails; after a successful check its kid is in the ring and, for the primary, is the signing kid, whether it was loaded now or recorded before |
| KeyInstallation.TickInstallsKids | internal/auth/keyring.go:374-390 | After a tick the primary's kid signs and the kid of every usable answer is in the ring |
| KeyInstallation.TickInstallsKeys | internal/auth/keyring.go:374-452 | With a versioned provider those kids carry exactly the material answered |
| KeyInstallation.NewestKeysAreInstalled | internal/auth/keyring.go:374-452 | Whatever earlier ticks did, after a tick with a usable primary answer that key signs and every other usable answer's key is in the ring, if the primary is not also verify-only |
| KeyInstallation.ListedPrimaryIsStuck | internal/auth/keyring.go:374-452 | For every setup that lists the primary as verify-only, a secret that changes between the two reads of a tick never becomes the signing key, for any number of later ticks |
| AuditChain.ComputeRowHash | internal/audit/store.go:159-196 | The digest fed piece by piece is the hash of previous hash (or 32 zero bytes) and fields in order |
| AuditChain.SeedMeans | internal/audit/store.go:167-174 | A missing previous hash counts as 32 zero bytes |
| AuditChain.NamesAreCovered | internal/audit/store.go:167-184 | For tenant, target and action each: changing it alone keeps the hashed bytes if and only if its own bytes stay |
| AuditChain.DocumentsAreCovered | internal/audit/store.go:167-184 | The same for before, after, context and time |
| AuditChain.JsonBytesMeans | internal/audit/store.go:198-225 | An absent or empty document adds nothing, any other its canonical form |
| AuditChain.RewrittenRowBreaks | services/api/audit.go:56-126 | With a collision-free hash, rewriting any one of the seven hashed fields of a hashed row makes that row the first that does not link, by its digest, among the rows handed to the verifier |
| AuditChain.VerifyRewritten | services/api/audit.go:56-126 | The verifier answers such a chain with a row-hash mismatch at that row |
| AuditChain.VerifyChain | services/api/audit.go:56-126 | Reports intact if and only if the rows form a valid chain, and otherwise names the first row that does not link and which of the two checks it fails |
| AuditChain.HeadCommitsToHistory | internal/audit/store.go:133-184 | Two valid chains with the same newest hash have equal length and hashed the same bytes everywhere, or the lemma returns a collision or a preimage of the zero seed |
| AuditChain.NoHashRepeats | internal/audit/store.go:133-184 | With no collision and no zero-seed preimage, no hash occurs twice in a chain |
| AuditChain.ValidAppend | internal/audit/store.go:133-184 | A chain extended by a row is valid exactly when the chain is and the row links to its head |
| AuditChain.ActorNotCommitted | internal/audit/store.go:167-184 | Rewriting actor and target type of any row neither breaks nor repairs a chain |
| AuditWriters.AuditLog.LogTx | internal/audit/store.go:49-117 | Refuses an entry without tenant or action, else appends one row naming the tenant's newest hash, with the caller's fields, the default actor kind, the time cut to microseconds and invalid documents dropped |
| AuditWriters.LatestMeans | internal/audit/store.go:136-152 | The row whose hash is fetched is one of the tenant's rows and none has a greater id |
| AuditWriters.LoneCallAppends | internal/audit/store.go:49-152 | From any state in which the tenant's lock is free, a call that nothing interrupts appends exactly its row after the tenant's newest committed one |
| AuditWriters.VerifierConfirmsIff | services/api/audit.go:56-126 | An honestly written log is found intact if and only if every row's digest can be recomputed from its stored form; with a collision-free hash, if and only if every row reads back to the bytes hashed |
| AuditWriters.FaithfulLogVerifies | internal/audit/store.go:186-225 | A log whose documents survive the column is always found intact, whatever the column does to other documents |
| AuditWriters.NegativeZeroIsNotConfirmed | internal/audit/store.go:198-225 | One honest entry with the document -0 is rejected by the verifier |
| AuditWriters.CommittedLogIsOneChain | internal/audit/store.go:49-152 | However transactions lock, fetch, insert, commit and roll back, and whatever storage does to documents, each tenant's committed rows in id order are one unforked chain of hashes |
| AuditWriters.EachRowNamesItsPredecessor | internal/audit/store.go:118-152 | From an empty table: nil first, then always the hash of the row before, with no hole from rollbacks |
| AuditWriters.CommittedLogIsAppendOnly | internal/audit/store.go:49-117 | The committed log at any time is a prefix of every later one |
| AuditWriters.InvHolds | internal/audit/store.go:118-152 | Lock ownership, fetched hashes and every tenant's chain including uncommitted rows stay consistent |
| Outbox.DeliveriesAreAccounted | internal/events/store.go:60-175 | For any workers and failures, an event's successful deliveries are one if marked, plus one per abort after delivery, plus one while in flight |
| Outbox.RowsAreHeldOnce | internal/events/store.go:118-175 | No two workers hold the same row and no worker holds a delivered one |
| Outbox.ReportedCountIsMarkedCount | internal/events/store.go:60-111 | A call reports the number of events it marked delivered in the table, within its limit, also when a later tenant failed; only a lost commit acknowledgement makes it report less |
| Outbox.MarksPartitionDelivered | internal/events/store.go:118-175 | Over every run the events marked by the calls are disjoint and together are exactly the delivered ones |
| Outbox.EventsAreNeverLost | internal/events/store.go:32-58 | A committed event stays in the table with its content through every run, and once delivered stays delivered |
| Outbox.PendingIsHeldOrNext | internal/events/store.go:118-150 | An undelivered event is held by a busy worker, or the next claim on its tenant takes it or fills up with events at least as old |
| Outbox.UndisturbedDrain | internal/events/store.go:60-175 | From any state, an uninterrupted call hands each of the oldest deliverable rows to deliver once, marks exactly those, releases its locks and reports their number, at most 100 without a limit |
| Outbox.Publisher.EmitTx | internal/events/store.go:32-58 | Inserts one undelivered row, or refuses and changes nothing |
| Outbox.Publisher.SelectBatch | internal/events/store.go:118-150 | Selects the oldest unlocked undelivered rows, as many as the limit allows |
| Outbox.Publisher.DrainTenant | internal/events/store.go:118-175 | Marks exactly one such batch, or nothing on failure |
| Outbox.Publisher.DrainBatch | internal/events/store.go:60-111 | The count returned is the drop in pending events; without failures it reaches the limit (100 when none is given) or leaves nothing pending; a failure is that of a tenant before which all are drained |
| Outbox.BatchLeavesPending | internal/events/store.go:118-175 | Marking a batch removes exactly it from what is pending, and a short batch empties its tenant |
| RoleClosure.WalkRoleChain | internal/authz/store.go:395-426 | The loop adds what the bounded walk adds, stopping at the first visited role |
| RoleClosure.ExpandRoles | internal/authz/store.go:281-289 | All held roles walked in order into one shared set |
| RoleClosure.UpFollowsParents | internal/authz/store.go:395-426 | A step up follows the stored parent unless it is null, empty, the role itself, or of an unknown role |
| RoleClosure.ExpandIsSound | internal/authz/store.go:281-289 | Every expanded role is within five parent steps of a held role |
| RoleClosure.MemberIff | internal/authz/store.go:281-289 | For any held roles in any order, a role is expanded if and only if some held role climbs to it within five steps without passing a role that the walks before it visited |
| RoleClosure.BoundedUnionIff | internal/authz/store.go:392-426 | The documented union of every held role's ancestors within the bound is computed if and only if each of them is reached so by some held role |
| RoleClosure.CompleteIff | internal/authz/store.go:392-426 | The expansion is the whole ancestor closure if and only if every held chain ends within six roles or its seventh role is reached so by some held role |
| RoleClosure.LaterRolesOnlyAdd | internal/authz/store.go:281-289 | Appending held roles never takes an expanded role away |
| RoleClosure.ExpandIsClosure | internal/authz/store.go:395-426 | When every held chain ends or cycles within six distinct roles, the set is exactly the ancestor closure, whatever the order |
| RoleClosure.SingleRoleCompleteIff | internal/authz/store.go:395-426 | For one held role the walk is complete if and only if the chain has at most six distinct roles |
| RoleClosure.ExtraRoleTakesAway | internal/authz/store.go:281-289 | On a chain of seven, holding the lowest role before the sixth takes the top role away, and after it does not |
| Authorization.MatchTransitive | internal/authz/store.go:511-528 | If a pattern matches a second pattern and that matches an action, the first matches the action |
| Authorization.PatternCoversIff | internal/authz/store.go:511-528 | One pattern matches another if and only if it matches everything the other matches |
| Authorization.PatternMeans | internal/authz/store.go:497-528 | What each form of pattern matches: everything, what begins with the prefix and a dot, or only itself |
| Authorization.PermKeyInjective | internal/authz/store.go:537-540 | Deduplication never merges two different permissions |
| Authorization.CacheKeyInjective | internal/authz/store.go:541-544 | Different users never share a cache entry |
| Authorization.PrefixSelectsTenant | internal/authz/store.go:545-547 | Tenant invalidation hits that tenant's keys and no others |
| Authorization.AddRole | internal/authz/store.go:290-313 | The deduplicating loop ends with exactly the union, each permission once |
| Authorization.LoadUserRoles | internal/authz/store.go:341-390 | The loop over the membership rows yields the held roles in order |
| Authorization.HeldMeans | internal/authz/store.go:341-390 | Named roles of the multi-role table decide alone; only without any does the legacy column count |
| Authorization.LoadRolePermissions | internal/authz/store.go:431-476 | The granular rows of a role when it has any, else its legacy list |
| Authorization.GranularRowsDecide | internal/authz/store.go:428-476 | A role with granular rows grants exactly those; one with none grants exactly its legacy list |
| Authorization.LegacyIsShadowed | internal/authz/store.go:428-476 | Replacing the legacy list of a role with granular rows changes no decision about any user, action, resource or record |
| Authorization.RowAllows | internal/authz/store.go:76-180 | Any stored row in force of an expanded role that covers the request and whose condition holds allows it |
| Authorization.RowBehindAllowed | internal/authz/store.go:76-125 | Conversely every allowed request has such an unconditional row behind it |
| Authorization.RowBehindAllowedRecord | internal/authz/store.go:132-180 | The same for a record, where a condition may hold instead |
| Authorization.Evaluator.QueryPermissionSet | internal/authz/store.go:267-313 | The loaded set is exactly the grants of the expanded roles, without repeats |
| Authorization.Evaluator.LoadPermissionSet | internal/authz/store.go:244-262 | Through the cache or not, the set is what a query would load now |
| Authorization.Evaluator.Authorize | internal/authz/store.go:76-125 | Allows exactly what a fresh, uncached union over the expanded roles allows |
| Authorization.Evaluator.AuthorizeRecord | internal/authz/store.go:132-180 | The same for a record, with conditions |
| Authorization.Evaluator.InvalidateTenant | internal/authz/store.go:231-239 | Afterwards a user of any tenant is cached exactly if it was and the tenant is another one, with the same set |
| Authorization.Evaluator.InvalidateUser | internal/authz/store.go:221-229 | Afterwards a user is cached exactly if it was and is not this one, with the same set |
| Authorization.Evaluator.Evict | internal/authz/store.go:244-262 | Any eviction keeps every remaining entry current |
| Authorization.Evaluator.WriteTables | internal/authz/store.go:231-239 | After a write followed by tenant invalidation every cached entry is current for the new tables |
| Authorization.Evaluator.WriteUserRoles | internal/authz/store.go:221-229 | The same for a role assignment followed by user invalidation |
| Authorization.OtherUsersUnaffected | internal/authz/store.go:341-390 | Changing one user's roles leaves every other user's permission set as it was |
| PermissionCacheRaces.StaleIffOverlapped | internal/authz/store.go:221-262 | In every interleaving of loads, tenant and user writes and their invalidations, once all invalidations that concern a user have run, the cached set is outdated if and only if a write that concerns the user committed between its query and its store |
| PermissionCacheRaces.FreshUnlessOverlappedOrPending | internal/authz/store.go:221-262 | A set whose load overlapped no write that concerns the user misses only writes whose invalidation is still to run |
| PermissionCacheRaces.InvalidateDropsExactly | internal/authz/store.go:221-239 | An invalidation drops all entries or one user's, as its write's scope says, and no others |
| PermissionCacheRaces.OverlappingLoadStaysStale | internal/authz/store.go:244-262 | The literal race: query, write, invalidate, store leaves an outdated set with nothing pending, for a tenant write and for a role assignment |
| TextPatch.PatchBody | cmd/new-tax-pack/main.go:766-791 | The cut-and-glue loop over one file's ops computes the specified text and counters, or the first op whose anchor is missing |
| TextPatch.OpMeans | cmd/new-tax-pack/main.go:764-791 | Any op, in terms of occurrences: skipped exactly when it has a marker and the text holds it, else inserted before the first occurrence of its anchor, else reported as missing |
| TextPatch.NothingDeleted | cmd/new-tax-pack/main.go:152-158 | For all ops whatever, the original text survives character by character and in order |
| TextPatch.CountersAddUp | cmd/new-tax-pack/main.go:747-800 | Insertions and skips add up to the ops, and no insertion means the text is unchanged |
| TextPatch.ValidatedNeverMisses | cmd/new-tax-pack/main.go:634-638 | For well-behaved ops on a text that validates, no anchor is ever missing |
| TextPatch.SecondRunIsIdle | cmd/new-tax-pack/main.go:170-175 | Applying the same ops to the result skips every op and returns it unchanged |
| TextPatch.OverlapCanMiss | cmd/new-tax-pack/main.go:634-638 | Without the overlap condition a validated text can lose an anchor |
| PatchMisses.MissesIff | cmd/new-tax-pack/main.go:634-638 | For ops that keep markers whole and insert no anchors, a validated text loses an anchor if and only if some op, unmarked at its turn, has its original anchor position straddled by an op applied before it |
| TextPatch.CountOne | cmd/new-tax-pack/main.go:665-672 | A non-overlapping count of one leaves only occurrences that overlap the one counted |
| TextPatch.CountMeans | cmd/new-tax-pack/main.go:665-672 | The count is zero exactly without an occurrence and one exactly when all occurrences overlap the first from the right; the empty anchor counts every boundary |
| PatchLayout.PatchedTextIsWoven | cmd/new-tax-pack/main.go:766-791 | The patched text is exactly the original with each applied op's insertion at the original position of its own anchor, in op order, and every anchor still stands whole and alone |
| PatchLayout.AnchorsStand | cmd/new-tax-pack/main.go:159-164 | Through every stage each anchor stays unique and whole, shifted by what was inserted at or before it |
| PatchPlan.Validate | cmd/new-tax-pack/main.go:641-676 | Accepts exactly the valid plans; otherwise complains about the least bad path and its first bad op |
| PatchPlan.CheckFile | cmd/new-tax-pack/main.go:648-673 | The same for one file: absent, anchor not found, or anchor not unique with its count |
| PatchPlan.ValidPlansArePatchable | cmd/new-tax-pack/main.go:634-638 | A well-behaved plan that validates is patched to the end on every file |
| PatchPlan.SecondExecuteChangesNothing | cmd/new-tax-pack/main.go:152-158 | A second execution passes validation, skips every op of every file and leaves all files the same |
| PatchPlan.PreviewIsAccurate | cmd/new-tax-pack/main.go:689-696 | A dry run prints exactly the lines of the real run |
| PatchPlan.FilesAfterMeans | cmd/new-tax-pack/main.go:710-809 | The tree after a run: old and new paths, new content where it is new, patched text where it is patched, the rest as it was |
| PatchPlan.PatchLineMeans | cmd/new-tax-pack/main.go:742-809 | The printed line of a patched file: its two counters, which add up to its ops, or what is missing; a file is written exactly when its line counts an applied op |
| PatchPlan.RetryCompletes | cmd/new-tax-pack/main.go:152-158 | After a run stopped by a refused write, running the plan again validates and ends where the first run would have |
| PackPlanners.WizardIsWellBehaved | cmd/new-tax-pack/main.go:418-472 | For every country code and locale the ops queued for wizard.go are well behaved |
| PackPlanners.FrontendWizardIsWellBehaved | cmd/new-tax-pack/main.go:478-505 | The same for the web setup wizard, whatever the display name |
| PackPlanners.LocalesAreWellBehaved | cmd/new-tax-pack/main.go:524-559 | The same for the locale registry, whatever the locale name and whether or not it is registered |
| PackPlanners.PlannersMakeGoodPlans | cmd/new-tax-pack/main.go:418-559 | Every plan made of the planners' ops meets the conditions under which execution is proved to complete and to be repeatable |
| PackPlanners.WizardRegistersCountry | cmd/new-tax-pack/main.go:418-472 | A validated wizard.go ends up with the embed directive, the chart entry, the default-chart case and, with a locale, the default-locale case of this country |
| PackPlanners.FrontendOffersChart | cmd/new-tax-pack/main.go:478-505 | A validated web wizard ends up offering the chart and naming it as the country's default |
| PackPlanners.RegistryHasLocale | cmd/new-tax-pack/main.go:524-559 | A validated locale registry ends up with the country's default and, if it was not registered, the locale |
| PackLayouts.WizardIsSettled | cmd/new-tax-pack/main.go:418-472 | For every country code and locale, each insertion into wizard.go lands before its own anchor: no insertion holds or completes one |
| PackLayouts.FrontendWizardIsSettled | cmd/new-tax-pack/main.go:478-505 | The same for the web setup wizard when the quoted display name holds no double slash |
| PackLayouts.LocalesAreSettled | cmd/new-tax-pack/main.go:524-559 | The same for the locale registry when the quoted locale name holds no double slash |
| PackLayouts.NameHoldingAnchor | cmd/new-tax-pack/main.go:478-505 | With a display name that holds the second marker line, the second insertion lands inside the first, in every file where both ops apply and that line does not stand earlier |
| PatchPlan.Tree.Execute | cmd/new-tax-pack/main.go:710-809 | An invalid plan writes nothing; a valid well-behaved one succeeds exactly when the file system takes the writes; success leaves exactly the specified files and touches a patched file only if an op applied; a failure leaves every file whole, as it was or as planned; a dry run never writes and never fails |
| PatchPlan.Tree.PatchFiles | cmd/new-tax-pack/main.go:742-809 | Succeeds on a real run exactly when every file can be patched to the end and every needed write is taken; otherwise a prefix of the files, in path order, is done |
| PatchPlan.Tree.CreateFiles | cmd/new-tax-pack/main.go:719-735 | Writes exactly the new files in path order, or stops at the first refused write with the files before it done |
| Ledger.LoadActuals | internal/finance/budget.go:985-1015 | The table holds each group under its key, and in the wildcard bucket what the bucket specification says |
| Ledger.GroupTotalIsMonthTotal | internal/finance/budget.go:969-984 | The groups of an account and month add up to the ledger's own total over all cost centres |
| Ledger.WildcardExactIff | internal/finance/budget.go:1002-1021 | The wildcard bucket is that total if and only if no group carries the sentinel, or the groups before the sentinel's group sum to it |
| Ledger.SentinelCountsTwice | internal/finance/budget.go:1002-1021 | One journal line posted to "*" is counted twice |
| Ledger.TableIsExact | internal/finance/budget.go:953-1015 | On a journal without the sentinel every lookup returns the ledger's amount, zero included |
| BudgetVariance.BudgetVsActual | internal/finance/budget.go:843-932 | The nested loops yield one row per line and month that meets the window, and totals equal to the sums over the rows |
| BudgetVariance.ReportLine | internal/finance/budget.go:878-930 | The same for one line's twelve months |
| BudgetVariance.TotalsReconcile | internal/finance/budget.go:905-930 | In every report, total variance is actual minus budgeted, and favourable minus unfavourable off expenses plus the reverse on expenses |
| BudgetVariance.ReportShowsLedger | internal/finance/budget.go:843-932 | On a journal without the sentinel the report's totals are those computed from the journal itself |
| BudgetVariance.SplitAtMonthAddsUp | internal/finance/budget.go:880-888 | All five totals computed from the journal add up when the window is cut at the start of any month |
| BudgetVariance.SplitReportsAddUp | internal/finance/budget.go:769-932 | The same for three reports, each from its own grouped query, on a journal without the sentinel |
| BudgetVariance.TotalActualIsLedger | internal/finance/budget.go:864-905 | Unscoped, one line per account: total actual is the ledger of the planned accounts in window and year, each account in its natural sign |
| BudgetVariance.ReportedActualIsLedger | internal/finance/budget.go:769-932 | The same for a report built from its grouped query, on a journal without the sentinel |
| BudgetReportMeaning.MeetsIff | internal/finance/budget.go:880-888 | For an ordered window a month is reported if and only if some instant of it lies in the window |
| BudgetReportMeaning.RowMeans | internal/finance/budget.go:889-923 | A row shows its month's budget, the actual in the account's sign and their difference; it is favourable when on plan or, for an expense, below and otherwise above; unplanned with an actual and no budget |
| BudgetReportMeaning.ReportRowsIff | internal/finance/budget.go:843-930 | A row is in the report if and only if it is that of some line and some month that meets the window, read from the line's own bucket |
| BudgetReportMeaning.TotalBudgeted | internal/finance/budget.go:880-930 | Total budgeted is the sum of all lines' budgets over the months that meet the window, whatever the actuals |
| BudgetReportMeaning.LineActualIsOwnLedger | internal/finance/budget.go:843-905 | A line's total actual is what the ledger posted in window and year to its account and, when it or the header is scoped, to that cost centre only |
| BudgetReportMeaning.TotalActualByLine | internal/finance/budget.go:843-930 | Total actual is the sum of those, however the lines are scoped |
| BudgetReportMeaning.ReportedActualIsBudgetedLedger | internal/finance/budget.go:769-932 | The same for a report from its grouped query; when no two lines are about the same postings, every budgeted posting in the window is counted exactly once and no other |
| Reencryption.Reencrypt | internal/tenant/encryption.go:313-347 | Succeeds if and only if the current key opens the value, or there is a previous key and that one does; the result is under the current key with the plaintext of the first that opened and the new nonce |
| Reencryption.Walk | cmd/rotate-master-key/main.go:226-261 | Fails exactly when some ciphertext leaf opens under neither key; otherwise only ciphertext leaves of the decoded tree differ, each resealed, and the flag says whether the tree differs |
| Reencryption.RewriteEncrypted | cmd/rotate-master-key/main.go:203-224 | Fails exactly on a scalar that does not decode or a leaf that does not open; returns the stored record itself when nothing changed, else the whole tree decoded, resealed and encoded |
| Reencryption.RewritableIff | cmd/rotate-master-key/main.go:203-261 | A record can be rewritten if and only if at every path in it a ciphertext opens under one of the two keys and a scalar decodes |
| Reencryption.RewrittenLeaf | cmd/rotate-master-key/main.go:203-261 | A rewritten record has the same paths, with strings as they were, ciphertexts under the current key with the plaintext of the first key that opened them, and scalars reprinted |
| Reencryption.OnlyScalarsMove | cmd/rotate-master-key/main.go:203-224 | Strings, shape and plaintexts survive: the current key alone reads what both keys read before, up to scalars reprinted by decoding |
| Reencryption.SweptReadsSameIff | cmd/rotate-master-key/main.go:203-224 | A swept record reads the same if and only if it has no ciphertext leaf or every scalar in it survives decoding and encoding |
| Reencryption.BigNumberIsLost | cmd/rotate-master-key/main.go:203-224 | A record with a ciphertext and the number 9007199254740993 comes back with 9007199254740992 |
| Reencryption.RewrittenIffCiphertext | cmd/rotate-master-key/main.go:19-20 | With new nonces a record is rewritten if and only if it has a ciphertext leaf |
| KeyRotation.SelectPage | cmd/rotate-master-key/main.go:149-155 | The least ids above the last one, in order, as many as the limit allows |
| KeyRotation.Records.RotateBatch | cmd/rotate-master-key/main.go:134-198 | One page is rewritten whole or, when a record does not decode or open, rolled back whole |
| KeyRotation.Records.RotateTenant | cmd/rotate-master-key/main.go:118-134 | Terminates; with a positive page size visits every record above the nil id exactly once in id order, succeeds if and only if at every path of those records a ciphertext opens under the current or the previous key and a scalar decodes, and counts the records rewritten |
| KeyRotation.OnlyScalarsAreTouched | cmd/rotate-master-key/main.go:112-117 | Complete, failed or stopped between pages, every record reads as before or as before with its scalars reprinted |
| KeyRotation.NothingIsLostIff | cmd/rotate-master-key/main.go:203-224 | A visited record reads the same if and only if it has no ciphertext or all its scalars survive decoding |
| KeyRotation.PreviousKeyCanBeDropped | cmd/rotate-master-key/main.go:8-17 | After a complete sweep the current key alone opens every record above the nil id, and reads it as before under that same condition |
| KeyRotation.SecondSweepRewrites | cmd/rotate-master-key/main.go:19-20 | A second sweep changes nothing a reader sees but rewrites a record if and only if it holds ciphertext |
| RotationRaces.WriteSurvivesIff | cmd/rotate-master-key/main.go:134-198 | With services writing during the sweep, a record holds what was last written to it if and only if no committed page after the last write updated it although it was written since the page was read |
| ReplicaRouting.ReplicaReadsAreJustified | internal/dbutil/pool_router.go:193-218 | In every interleaving, a read sent to the replica compared a lag within tolerance, of a node that has replayed, from the sample whose timestamp passed or a later one, and of bounded age |
| ReplicaRouting.UndisturbedRead | internal/dbutil/pool_router.go:193-218 | An uninterrupted read goes to the replica if and only if the last stamp is fresh and the last probe came from a node that has replayed and reported a delay within tolerance |
| ReplicaRouting.UndisturbedSample | internal/dbutil/pool_router.go:257-300 | An uninterrupted sample becomes the last lag, stamped with its time |
| ReplicaRouting.ReadAfterSample | internal/dbutil/pool_router.go:193-300 | From probe to decision: a read some time after a sample goes to the replica if and only if the sample is not too old, the node has replayed and the lag is within tolerance |
| ReplicaRouting.InvHolds | internal/dbutil/pool_router.go:257-300 | Stamps name stored samples in order, through every run of samplers and readers |
| SamplerLifecycle.AtMostOneSampler | internal/dbutil/pool_router.go:382-406 | No run ever has two samplers |
| SamplerLifecycle.StartsIff | internal/dbutil/pool_router.go:382-406 | A start takes effect exactly with a replica, a positive interval and no sampler started before |
| SamplerLifecycle.LoneCloseReturns | internal/dbutil/pool_router.go:430-445 | The first Close cancels the sampler it finds; once that has left the call returns and none runs |
| SamplerLifecycle.StartedBeforeCloseIsJoined | internal/dbutil/pool_router.go:430-445 | A sampler started before Close reads the fields makes no access after any Close call has returned |
| SamplerLifecycle.QuietAfterCloseIff | internal/dbutil/pool_router.go:430-445 | After a return from Close no continuation makes a sampler access if and only if Close joined a sampler or the only one has exited |
| SamplerLifecycle.MissedRunsOn | internal/dbutil/pool_router.go:382-445 | After Close missed it, only the outer context ends a sampler |
| DocHistory.HistoryIsComplete | internal/docs/docs.go:71-195 | In every interleaving a document's versions are exactly 1 to the current one, and the live row is the latest |
| DocHistory.OneVersionPerCommit | internal/docs/docs.go:123-195 | Each commit made its own version: none lost, none overwritten |
| DocHistory.VersionsNeverChange | internal/docs/docs.go:123-195 | A version reads the same in every continuation |
| DocHistory.RestoresLeadToAnOriginal | internal/docs/docs.go:299-370 | Following restored_from goes strictly back to a version that is no restore and has the same title and content |
| DocHistory.InvHolds | internal/docs/docs.go:123-370 | What a lock holder read still matches the committed row, through every run |
| DocHistory.UndisturbedSave | internal/docs/docs.go:123-195 | An uninterrupted save makes exactly the given text live as the next version, with the old title when none is given and the empty object for no content |
| DocHistory.UndisturbedRestore | internal/docs/docs.go:299-370 | An uninterrupted restore makes that version's text live as the next version, or changes nothing when there is no such version |
| DocHistory.Store.Create | internal/docs/docs.go:71-117 | Starts a history at version 1, or refuses and changes nothing |
| DocHistory.Store.SaveVersion | internal/docs/docs.go:123-195 | Appends the next version, keeping the live title when none is given |
| DocHistory.Store.Restore | internal/docs/docs.go:299-370 | Succeeds exactly for versions 1 to the current one; the live text becomes that version's |
| ProofOfWork.HasLeadingZeroBits | internal/captcha/pow.go:287-306 | The byte loop with its mask is true if and only if the digest as a big-endian number is below two to the number of remaining bits |
| ProofOfWork.DecodeEncode | internal/captcha/pow.go:260-281 | Decoding undoes encoding, negative timestamps included |
| ProofOfWork.EncodeDecode | internal/captcha/pow.go:260-281 | Every 33-byte header is the encoding of what it decodes to |
| ProofOfWork.HeaderLayout | internal/captcha/pow.go:260-272 | The first two words are issue time and expiry, most significant byte first |

## Left out

- HTTP handlers, clients and middleware, external identity services, and everything that only forwards to a store.
- Cryptography, base64, JSON text, SQL parsing and PEM parsing: functions with stated facts (a digest has 32 bytes, a seal opens, a signature checks under its own public key). Nonces come from a supply that does not repeat.
- Token claims and time windows of a JWT: only the signature path is modelled.
- Time zones and wall clocks: instants are numbers and `now` is an input or a clock that does not go back.
- Authorization.Evaluator.LoadPermissionSet: the class runs one call at a time; overlapping loads and invalidations are in `PermissionCacheRaces`, for one tenant and without the content of the sets.
- Sessions.PGSessionStore.Create: the cap is checked as in one call; the code itself calls it a soft limit under concurrency.
- Authorization.LoadRolePermissions: legacy lists are given as parsed, malformed ones as empty.
- KeyRingStore.Ring.AddVerifier: the class runs one call at a time; retries under contention are in `KeyRingThreads`.
- Outbox.Publisher.DrainBatch: the tenant list, the set of rows locked by others and which tenants fail are inputs.
- PatchPlan.Tree.Execute: a write is all or nothing; the temporary file a failed rename leaves, relative paths in messages and the text of the log lines are not modelled.
- PatchLayout.PatchedTextIsWoven: needs, beyond the overlap condition, that no insertion holds or completes an anchor; for the web client's ops that is proved for display names without a double slash.
- PatchMisses.MissesIff: for ops that could split a marker or insert an anchor no exact condition is given.
- BudgetVariance.BudgetVsActual: the percentage column, names and labels, the defaults for an empty range and the error for missing ids are left out; account types are an enumeration with a value for any other text.
- Ledger.LoadActuals: the grouped query is an input described by a predicate (`IsGrouping`), its order arbitrary.
- KeyRotation.Records.RotateTenant: alone with the table; other writers are in `RotationRaces`, which tracks whose content a record holds and not the content. Empty raw columns do not occur in a JSONB column.
- ReplicaRouting: the lag in seconds is an exact number, not a float; LastLag, error counting and query timeouts add only branch lists.
- DocHistory: diff, change summary, actors and timestamps are stored unread; creating a document is one atomic step.
- ProofOfWork: issuing and verifying challenges with the replay cache, whose check and act are separate steps by design.
- Budget editing, dashboards, file and object stores, seed and migration commands, schema literals, agent tools and all TypeScript.
