# mxid: authorization, access grants and their supporting machinery, verified

A Dafny model of the parts of the mxid identity platform that decide who may do what, and of the small state
machines those decisions rest on. `dafny verify dfyconfig.toml` checks all of it.

**Authorization.** `Casbin` is the policy engine and the compiled policy set, `Orgs` the organization tree by
paths, `Directory` the tables and the two ways of reading them, `Authz` the permission check, `BindingCache`
the two-level cache of effective bindings as an object. `CacheProtocol` runs any number of pods against one
database and one Redis: lookups split into read and fill, invalidations split into their steps, broadcasts
delivered late or never, enforcers rebuilt at any time. `CacheConvergence` says when an invalidation takes
hold for good, and `CacheLimits` gives runs that show how far the theorems reach.

**Just-in-time access.** `Access` is the eligibility rules, requests, grants and the sweeper; `AccessProtocol`
interleaves any number of approvals, revocations, expiries, rule edits and hand-made bindings, each cut
between its read and its transaction. `AccessDeclines` says when a rejection or a cancellation can leave a
grant behind that no request answers for, `AccessRows` which rows come and go and when a grant is over, and
`AccessCalls` ties the service's calls to the protocol's steps.

**Supporting machines.** `Outbox` and `OutboxProtocol` (retry queue with leases), `Limiter` (failure counter
with lockout), `Sessions` (session store and per-user index) and `SessionProtocol` (its calls cut between read
and save), `Snowflake` (id generator), `Partitions` and `PartitionProtocol` (monthly partitions with a
backstop).

**Text.** `Like` (LIKE escaping), `Syslog` (RFC 5424 line, RFC 6587 frame), `Base64` (both encoders),
`Decimal` (base-ten numbers), `Bits` (shifts and masks as arithmetic). `Common` holds shared vocabulary.

Classes are the source's objects; their methods are proved equal to specification functions, and the theorems
are about those functions and about runs that use them. Clocks, database answers and network outcomes are
parameters: a parameter such as `reachable`, `persisted`, `gives` or an `Attempt` says whether an outside call
works and how far it gets. A database transaction is one step; a Redis key is live while the clock is before
its expiry, an L1 entry up to and including it.

## What does not hold as stated, and when it does

- The enforcer and the inlined permission sets can disagree: a role with id 0 is taken for the super admin.
  `Directory.EnforcerAgreesIff` says exactly when they agree, `Directory.MisreadExample` shows a case where
  they do not; with nonzero role ids they always agree.
- A lookup that read the database before a change and fills a cache after the invalidation puts the old set
  back, in its own pod (`CacheLimits.RacingFillDefeatsInvalidation`) or, through Redis, in every pod
  (`CacheLimits.LateStoreDefeatsInvalidation`). `CacheConvergence.InvalidationConverges` gives the exact
  condition, over all continuations of a run.
- Limiter: the bound is max(M, 2M - 2) for M attempts, and M for a window of one instant; every configuration
  reaches it, and it is never above 2M - 1. It holds exactly when the lockout is no shorter than the window
  (`Limiter.BoundHoldsIff`).
- Outbox: done and dead are final if no claim outlives its lease. Without that,
  `OutboxProtocol.FinalIffUnthreatened` says exactly when a verdict stands, and
  `OutboxProtocol.LateFailureBuriesDelivered` shows one that does not.
- Syslog: a retry that fails part-way leaves its connection open with a torn line on it, and the next message
  is misread (`Syslog.TornLineIsMisread`). The collector reads exactly what was written if and only if no torn
  octets are on the connection (`Syslog.CollectorReadsEveryMessageIff`).
- Sessions: an absolute timeout that shrinks can strand a session outside its user's index
  (`Sessions.ShrinkingTimeoutStrandsASession`; exact condition in `Sessions.CreateKeepsCoveredIff`). So can a
  login between the two halves of a revocation (`SessionProtocol.LoginDuringRevocation`) and a late save.
  `SessionProtocol.CoveredThroughoutIff` says for whole runs when no session is missed.
- Sessions: a revoked or logged-out session comes back if a touch or a flag update had read it before and
  saves it after (`SessionProtocol.TouchUndoesRevocation`). Then neither listing nor revoking finds it.
  `SessionProtocol.RevocationIsFinalIff` and `SessionProtocol.StaysGoneIff` say, over all continuations,
  exactly when that cannot happen. Its absolute timeout still ends it
  (`SessionProtocol.NeverOutlivesTimeout`).
- Snowflake: ids increase exactly while the clock does not go back (`Snowflake.IncreasesIff`,
  `Snowflake.BackwardClockRepeats`).
- Partitions: the comment of pgpartition says that rolling forward lets future writes always land. The code
  looks for a relation by name only, so a relation that merely has a month's name leaves a gap
  (`PartitionProtocol.NameAloneLeavesAGap`); `PartitionProtocol.EnsureTilesIff` and
  `PartitionProtocol.BackstopAttachedIff` say exactly when there is none.
- Access: a rejection or a cancellation reads the status and then updates it without a guard, although its
  comment speaks of pending requests only. If an approval commits in between, the request ends up declined
  while its binding stays (`AccessDeclines.GrantOrphaned`), and neither revocation nor the sweeper will take
  it (`AccessDeclines.OrphanIsOutOfReach`); a late rejection also overwrites the recorded approver.
  `AccessDeclines.BackedForGoodIff` says, over all continuations, exactly which requests this cannot happen
  to.
- Orgs: ancestry is tested by paths without regard to the tenant, so two tenants with a root of the same code
  can be confused (`Orgs.TenantsCanBeConfused`); `Orgs.AncestryIsTheTreeIff` has the exact condition.
- Access: a grant for app number 0 can be refused because of a binding of app group 0, which shares its index
  entry (`AccessProtocol.AppZeroIsRefused`); `AccessProtocol.GrantSucceedsIff` has the exact condition.

## Model

| member | source | states |
|---|---|---|
| Casbin.RoleSubjectInjective | pkg/authz/casbin.go:57-59 | distinct role ids have distinct subjects |
| Casbin.TenantDomainInjective | pkg/authz/casbin.go:67-69 | distinct tenants have distinct domains |
| Casbin.RoleSubjectIsNotSuperAdmin | pkg/authz/casbin.go:57-59 | no role's subject is the super-admin subject |
| Casbin.FlatChain | pkg/authz/casbin.go:51-52 | with self-edges only, every chain of the role hierarchy stays at its start |
| Casbin.LinkedIsClosure | pkg/authz/casbin.go:51-52 | the matcher's role hierarchy is the closure of its edges |
| Casbin.FlatLinked | pkg/authz/casbin.go:51-52 | with self-edges only, the hierarchy links a subject to itself alone, and only in domains where it has an edge |
| Casbin.FlatDecision | pkg/authz/casbin.go:51-52 | the matcher over the transitive hierarchy equals a lookup of one rule and one edge |
| Casbin.CompiledRule | pkg/authz/casbin.go:143-206 | a compiled rule stands for exactly one catalogue entry, and comes with its edge |
| Casbin.RoleVerdict | pkg/authz/casbin.go:143-222 | a role holds a permission in a tenant iff the catalogue grants it there by name or by wildcard |
| Casbin.SuperAdminVerdict | pkg/authz/casbin.go:143-222 | the super-admin subject holds everything in tenants with a super admin and nothing elsewhere |
| Casbin.CasbinEngine.AddSelf | pkg/authz/casbin.go:155-166 | the remembered text keys stand for exactly the edges added, so an edge is added once and never skipped wrongly |
| Casbin.CasbinEngine.ReplacePolicies | pkg/authz/casbin.go:143-206 | the loops build the compiled set of the whole catalogue; it replaces the running one only if it was persisted |
| Casbin.CasbinEngine.Sync | pkg/authz/casbin.go:240-246 | a failed load or write keeps the running policy set |
| Casbin.CasbinEngine.RoleHasPermission | pkg/authz/casbin.go:210-222 | answers the matcher's verdict, and no without an enforcer or on its error |
| Orgs.AncestryIsReflexive | internal/domain/org/repository_impl.go:237-239 | an org is its own ancestor, even one that is not in the table |
| Orgs.AncestryIsTransitive | internal/domain/org/repository_impl.go:233-255 | ancestry by paths composes |
| Orgs.InheritedFrom | internal/domain/org/repository_impl.go:211-231 | a user's org ids are exactly the tenant's orgs at or above one they are a member of |
| Orgs.AncestryIsTheTreeIff | internal/domain/org/repository_impl.go:233-255 | where paths follow parents, the path test finds exactly the ancestors by parents, iff the two orgs share the tenant or their paths do not chain |
| Orgs.TenantsCanBeConfused | internal/domain/org/repository_impl.go:242-249 | a well-formed table of two tenants on which the path test takes one's root for an ancestor of the other's sub-org |
| Authz.BindingGrantsPerm | pkg/authz/service.go:98-126 | the verdict for one binding, by the enforcer if there is one, else by the inlined set; an enforcer error denies |
| Authz.CoversExactlyItsScope | pkg/authz/service.go:138-165 | the scope decision is the scope's extent by the org tree: everything, the org with all below it, or the one group; an error exactly when the tree has to be asked and gives no answer |
| Authz.AllowsBelow | pkg/authz/service.go:138-165 | what a binding allows on an org it allows on every org below it |
| Authz.AllowsItsOwnOrg | pkg/authz/service.go:137-165 | a binding scoped to an org allows on that org |
| Authz.CheckAllowsBelow | pkg/authz/service.go:54-91 | so does the whole check |
| Authz.OneBindingIsEnough | pkg/authz/service.go:69-89 | one allowing binding whose enforcer call goes through is enough |
| Authz.ReachesNoFurther | pkg/authz/service.go:138-165 | a binding scoped to an org allows on that org and on none but those below it; one scoped to a group on that group alone; an unknown scope on nothing |
| Authz.AllowsUntilExpiry | pkg/authz/service.go:69-78 | a binding that allows does so at exactly the instants up to its expiry |
| Authz.Check | pkg/authz/service.go:54-91 | an error exactly for malformed input or a failed load; else allow iff some binding is unexpired, covers the target and grants the permission; a failed enforcer call or scope lookup counts against its binding |
| Directory.EffectiveBindingsForUser | app/adapters_authz.go:76-185 | an error exactly when the user or the bindings cannot be read; else the effective bindings of the tables as far as the other queries saw them |
| Directory.EffectiveIffGiven | app/adapters_authz.go:98-184 | a user who is no super admin holds a binding iff an active, unexpired row of a live role in the tenant gives it, for the user, for one of their groups, or for an org at or above one of theirs, with the row's role, scope and expiry and the role's codes |
| Directory.SuperAdminHoldsEverything | app/adapters_authz.go:77-96 | a super admin holds the one global, permanent wildcard |
| Directory.ForeignRowsDoNotMatter | app/adapters_authz.go:113-132 | adding, changing or removing rows for other users, foreign groups and foreign orgs changes nothing |
| Directory.JoinBindings | app/adapters_authz.go:133-184 | two queries and an in-memory join give exactly the effective bindings |
| Directory.OverlookedErrorsOnlyTakeAway | app/adapters_authz.go:96-157 | a failed group, org or permission query never adds a binding or a permission |
| Directory.JoinedCodes | app/adapters_authz.go:140-164 | one query for all roles, split up again, gives every role its own codes |
| Directory.LoadPolicies | app/adapters_authz.go:198-234 | the loop yields exactly the catalogue and the super-admin tenants; either failed query is reported |
| Directory.CatalogueVerdict | app/adapters_authz.go:198-234 | the compiled enforcer's verdict on a role equals what the tables say |
| Directory.EnforcerReadsTables | pkg/authz/service.go:98-116 | the same for a binding, super admin included |
| Directory.EffectiveIsSuperOrLive | app/adapters_authz.go:76-185 | a super admin has exactly the synthetic binding; everyone else only bindings of live roles with those roles' codes |
| Directory.EnforcerAgreesIff | pkg/authz/service.go:98-126 | enforcer and inlined set agree on every permission of an effective binding iff it is not misread as super admin |
| Directory.EnforcerAgrees | pkg/authz/service.go:98-126 | with nonzero role ids they agree for every user, tenant and permission |
| Directory.MisreadExample | pkg/authz/service.go:109-116 | role 0 with the wildcard: a database where they disagree |
| Directory.TenantIsolation | app/adapters_authz.go:198-234 | databases that differ only in other tenants give the same verdicts |
| BindingCache.CacheKeyInjective | pkg/authz/cache.go:333-335 | no two users share a cache key |
| BindingCache.StoredRoundTrip | pkg/authz/cache.go:244-304 | a trip through Redis changes nothing but the sub-second part of expiries |
| BindingCache.TruncatedTwice | pkg/authz/cache.go:276-296 | further trips change nothing more |
| BindingCache.TruncationEndsEarly | pkg/authz/cache.go:267-294 | truncation never extends access and ends it less than a second early |
| BindingCache.ServedForItsTime | pkg/authz/cache.go:201-214 | an entry is served for exactly its time to live, in L1 up to and in Redis before its last instant |
| BindingCache.CachedBindingProvider.constructor | pkg/authz/cache.go:80-98 | both TTLs default when not positive; the cache starts empty |
| BindingCache.CachedBindingProvider.Serialize | pkg/authz/cache.go:276-296 | the payload encodes the set, in any order of permissions |
| BindingCache.CachedBindingProvider.Deserialize | pkg/authz/cache.go:249-273 | decodes every entry |
| BindingCache.CachedBindingProvider.EffectiveBindingsForUser | pkg/authz/cache.go:102-130 | L1, then Redis, then the provider; what is filled with which expiry, by which clock reading, and nothing on an error |
| BindingCache.CachedBindingProvider.Invalidate | pkg/authz/cache.go:137-150 | drops L1, then Redis, then broadcasts; a failing step leaves the later ones undone |
| BindingCache.CachedBindingProvider.InvalidateAll | pkg/authz/cache.go:156-175 | clears L1 and broadcasts the sentinel, leaves Redis to the purge |
| BindingCache.CachedBindingProvider.HandleMessages | pkg/authz/cache.go:308-331 | after any broadcasts L1 keeps exactly what none of them named |
| CacheProtocol.OriginStored | pkg/authz/cache.go:244-304 | storing a read set in Redis keeps its date |
| CacheProtocol.L1DatedStep | pkg/authz/cache.go:201-215 | every step keeps each L1 entry no older than its expiry allows |
| CacheProtocol.L2DatedStep | pkg/authz/cache.go:276-304 | the same for Redis entries |
| CacheProtocol.CallsDatedStep | pkg/authz/cache.go:102-130 | the same for answers still under way |
| CacheProtocol.BoundedStaleness | pkg/authz/cache.go:102-130 | in every run, broadcasts lost or not, a served set was the provider's answer at most l1TTL + l2TTL (plus two call delays) ago |
| CacheProtocol.EnginesDated | app/adapters_authz.go:250-312 | every pod's enforcer is empty or the one of some earlier database state |
| CacheProtocol.ServedBindingWasHeld | pkg/authz/cache.go:102-130 | every served binding was really held within the bound, up to truncation of its expiry |
| CacheProtocol.EnforcerGrantIsFounded | pkg/authz/service.go:98-103 | an enforcer's grant is a grant by the catalogue it was built from |
| CacheProtocol.CheckSound | pkg/authz/service.go:54-91 | in every run, what `Check` allows rests on a served binding held in a database state within the bound, with the target in its scope by the org tree of the moment, truly unexpired, whose role holds the permission |
| CacheConvergence.LiveEntryFreshStep | pkg/authz/cache.go:276-304 | a fresh Redis entry is only ever replaced by a fresh one, if the reads under way are fresh |
| CacheConvergence.DbReadsFreshStep | pkg/authz/cache.go:118-128 | reads under way stay fresh |
| CacheConvergence.PodFreshStep | pkg/authz/cache.go:102-130 | a pod that holds only fresh sets keeps to them while Redis is fresh |
| CacheConvergence.FreshConverges | pkg/authz/cache.go:102-150 | if nothing old is left, no continuation ever serves an old set |
| CacheConvergence.StaleCallThreat | pkg/authz/cache.go:118-128 | an old answer in the pod's own call is served |
| CacheConvergence.StaleReadThreat | pkg/authz/cache.go:124-128 | an old database read on any pod can be stored and served from Redis |
| CacheConvergence.StaleEntryThreat | pkg/authz/cache.go:110-116 | an old live Redis entry can be served |
| CacheConvergence.InvalidationConverges | pkg/authz/cache.go:137-150 | from the delivery on, every continuation serves only sets read since the change, iff then neither the pod's calls nor any pod's database reads nor Redis hold an older one |
| CacheConvergence.DeletionHolds | pkg/authz/cache.go:137-150 | after the Redis delete, with no older read under way, Redis stays fresh |
| CacheConvergence.DeletedThenDelivered | pkg/authz/cache.go:137-150 | after such a delete only the pod's own calls matter |
| CacheConvergence.AtomicInvalidationConverges | pkg/authz/cache.go:137-150 | with read and fill in one instant the invalidation always holds |
| CacheLimits.StalenessBoundIsReached | pkg/authz/cache.go:102-130 | for every choice of TTLs a run serves a set one nanosecond short of the bound |
| CacheLimits.RacingFillDefeatsInvalidation | pkg/authz/cache.go:102-150 | a run in which a late fill restores a revoked set after a complete invalidation |
| CacheLimits.LateStoreDefeatsInvalidation | pkg/authz/cache.go:102-150 | a run in which another pod's late store makes a pod with nothing under way serve a revoked set |
| Access.Repository.InsertBindingTx | internal/domain/access/repository.go:441-503 | supersedes and inserts as specified, for console and app grants |
| Access.Repository.ApproveAndGrantTx | internal/domain/access/repository.go:513-545 | insert and guarded update in one; a refused update restores the superseded row |
| Access.Repository.Reject | internal/domain/access/service.go:468-482 | declines exactly a pending request of the tenant, recording who did; otherwise nothing changes |
| Access.Repository.Cancel | internal/domain/access/service.go:484-499 | withdraws exactly the caller's own pending request and keeps the recorded approver |
| Access.Repository.UpdateRequestStatus | internal/domain/access/repository.go:549-556 | overwrites the status whatever it was, and touches no binding |
| Access.Repository.EndGrantTx | internal/domain/access/repository.go:561-581 | removes the request's own row and sets its final status |
| Access.Repository.Approve | internal/domain/access/service.go:405-465 | succeeds exactly if the request is pending, decided by someone else and allowed by the rule, and the grant goes through; then it lasts exactly the requested seconds; an error changes nothing |
| Access.EligibleByKind | internal/domain/access/service.go:311-326 | who may ask under a rule of each kind, and that a rule of an unknown kind admits nobody |
| Access.ApproverByKind | internal/domain/access/service.go:328-352 | who may approve under a rule of each kind, super admins aside |
| AccessCalls.MayApproveIff | internal/domain/access/service.go:405-436 | an approval may be made exactly when both checks of the protocol let a new call through, for the request's own tenant |
| AccessCalls.ApproveInThree | internal/domain/access/service.go:405-465 | without interruption the protocol's three steps have the outcome of the one call |
| AccessCalls.ApprovalGrants | internal/domain/access/service.go:405-465 | a successful approval leaves the request approved by that person, now, until the requested seconds later, with its row in place |
| AccessCalls.DeclineInTwo | internal/domain/access/service.go:468-499 | a rejection or cancellation starts exactly on a pending request, and without interruption has the outcome of the one call |
| AccessCalls.DeclineEffect | internal/domain/access/repository.go:549-556 | a decline sets status, time and decider of its own request and leaves all else |
| AccessCalls.RuleAcceptedIff | internal/domain/access/service.go:185-205 | a rule is accepted exactly if it names the console or an app, its maximum is positive and at most seven days, and it offers durations, all positive and within it |
| AccessCalls.EveryRuleAsSubmitted | internal/domain/access/service.go:207-278 | every rule in force in every run is as it was last submitted, omitted flags being true for a new rule and unchanged for an edited one |
| Access.Repository.SweepOnce | internal/domain/access/sweeper.go:34-63 | ends exactly the due grants, one by one, but those whose transaction fails, and counts them; if the list was read, no other approved request is at or past its expiry |
| Access.SweptOneMore | internal/domain/access/sweeper.go:34-63 | ending one more grant adds it to the set swept, whatever was ended before |
| AccessProtocol.GrantEffect | internal/domain/access/repository.go:513-545 | what a committed grant changes and what it leaves |
| AccessProtocol.EndEffect | internal/domain/access/repository.go:561-581 | what ending a grant removes and what it leaves |
| AccessProtocol.GrantKeepsInv | internal/domain/access/repository.go:513-545 | a commit from any stale read keeps grant integrity |
| AccessProtocol.EndKeepsInv | internal/domain/access/repository.go:561-581 | so does a late revocation or expiry |
| AccessProtocol.DeclineKeepsInv | internal/domain/access/repository.go:549-556 | and an unguarded status update |
| AccessProtocol.AskKeepsInv | internal/domain/access/service.go:355-387 | a new request keeps it, because rules are valid |
| AccessProtocol.RulesValidStep | internal/domain/access/service.go:185-274 | every rule in force has a target, a positive maximum of at most seven days, and allowed durations within it |
| AccessProtocol.Invariant | internal/domain/access/repository.go:441-581 | in every run each row with a grant id belongs to that request, which was approved, points back to the row, and is approved still unless a late decline overwrote it |
| AccessProtocol.ApprovedAtMostOnce | internal/domain/access/repository.go:513-545 | no request is ever activated twice |
| AccessProtocol.OneRowPerTarget | internal/domain/access/repository.go:441-503 | at most one row per role, user and scope, NULLs read as '' and 0, and per app, tenant, role and user |
| AccessProtocol.GrantSucceedsIff | internal/domain/access/repository.go:441-545 | a commit succeeds iff its request is still pending and no app-group row blocks app 0 |
| AccessProtocol.AppZeroIsRefused | internal/domain/access/repository.go:441-503 | a run in which the commit for app 0 is refused while its request is pending |
| AccessProtocol.RowsAlwaysOwned | internal/domain/access/repository.go:441-581 | a row that a request points to is that request's grant |
| AccessProtocol.EndRemovesOnlyItsGrant | internal/domain/access/repository.go:561-581 | ending a superseded request never removes the newer binding |
| AccessProtocol.EveryRequestFounded | internal/domain/access/service.go:355-387 | every request was made by someone eligible under an enabled rule then in force, with the reason it insists on, within its durations |
| AccessProtocol.EveryCallFounded | internal/domain/access/service.go:405-465 | every approval under way passed its own check in some earlier state |
| AccessProtocol.EveryActivationFounded | internal/domain/access/service.go:405-465 | every activation goes back to its own check of an allowed approver other than the requester |
| AccessProtocol.EveryGrantIsFounded | internal/domain/access/service.go:333-465 | every grant row in every run was asked for by someone eligible, lasts exactly its requested seconds, within the rule at request time, and was approved as the rule at decision time allows; its request is approved, or declined since |
| AccessDeclines.ReachedIsSound | internal/domain/access/repository.go:441-581 | every state of every run satisfies what the theorems below start from |
| AccessDeclines.SafeStep | internal/domain/access/service.go:468-499 | no step takes a request out of the safe states |
| AccessDeclines.LateDeclineOrphans | internal/domain/access/repository.go:549-556 | one step suffices where a decline is under way on a standing grant |
| AccessDeclines.PendingCanBeOrphaned | internal/domain/access/service.go:405-499 | every pending request can still be approved under a decline that then leaves its grant behind |
| AccessDeclines.BackedForGoodIff | internal/domain/access/service.go:405-499 | in all continuations a row that stands for the request has it approved, iff the request is decided and, if a row stands for it now, is approved with no decline under way |
| AccessDeclines.OrphanIsOutOfReach | internal/domain/access/sweeper.go:34-63 | once a request is declined with no revocation or expiry already under way, it stays declined and never due in all continuations, and neither can start on it |
| AccessDeclines.GrantOrphaned | internal/domain/access/service.go:468-482 | a run from the empty state that ends with an orphaned grant |
| AccessRows.CommitReplacesExactly | internal/domain/access/repository.go:441-503 | in every run a successful approval takes away exactly the rows of the same role, user and scope, NULLs read as '' and 0, or of the same app, tenant, role and user; all others in both tables stay as they are |
| AccessRows.RowsComeAndGo | internal/domain/access/repository.go:441-581 | in every run a row leaves exactly by an administrator's step, the end of its own grant or an approval of the same holding, never changes, and arrives only by an administrator's step or its own approval |
| AccessRows.OverAfterTheRequestedSeconds | internal/domain/access/repository.go:583-591 | a grant can be taken up for expiry exactly once the requested seconds have passed since its decision |
| AccessRows.SweepTakesTheOverdue | internal/domain/access/sweeper.go:34-63 | in every run a sweep expires exactly the approved requests whose time is up, but those that fail, and removes exactly their rows |
| AccessRows.SweepLeavesNothingOverdue | internal/domain/access/sweeper.go:34-63 | after a sweep without failures no approved request is past its expiry, and a grant row past its own is there only if its request was declined |
| Outbox.DelayNeverDecreases | internal/outbox/worker.go:111-120 | later attempts never wait less, and never more than the cap |
| Outbox.DelayDoubles | internal/outbox/worker.go:111-120 | the base after the first attempt, and then twice the delay before, up to the cap |
| Outbox.Backoff | internal/outbox/worker.go:111-120 | the loop computes min(cap, base * 2^(n-1)) |
| Outbox.Repository.Enqueue | internal/outbox/repository.go:43-66 | stores the message with its defaults |
| Outbox.Repository.Claim | internal/outbox/repository.go:73-99 | leases the earliest due messages that are not locked, as many as allowed, and nothing else |
| Outbox.Repository.EarliestN | internal/outbox/repository.go:73-99 | the n earliest of the due rows |
| Outbox.Repository.MarkDone | internal/outbox/repository.go:101-106 | marks that message done |
| Outbox.Repository.Fail | internal/outbox/repository.go:108-118 | dead when the claim's attempts are used up, else put off |
| Outbox.Worker.constructor | internal/outbox/worker.go:33-44 | the default batch, lease and delays |
| Outbox.Worker.Dispatch | internal/outbox/worker.go:80-107 | settles one message by its handler's outcome, whatever has become of its row |
| Outbox.Worker.Tick | internal/outbox/worker.go:69-78 | claims as many due messages as the batch holds, earliest first, and settles each, at its own time and if that write succeeds, touching no other |
| OutboxProtocol.CountedStep | internal/outbox/repository.go:73-118 | attempts count claims across every step |
| OutboxProtocol.InvStep | internal/outbox/repository.go:73-118 | every step, crashes included, keeps all statuses explained |
| OutboxProtocol.EveryMessageExplained | internal/outbox/repository.go:73-118 | in every run attempts equal claims, done means handled, dead means failed at or past the limit |
| OutboxProtocol.NeverLost | internal/outbox/repository.go:73-99 | an enqueued message stays, and while pending can be claimed once its time comes |
| OutboxProtocol.WorkerTakesTheSteps | internal/outbox/worker.go:69-109 | claiming and dispatching without interruption is taking, finishing and settling in the protocol |
| OutboxProtocol.HiddenForTheLease | internal/outbox/repository.go:73-99 | a claimed message is claimable again exactly from the end of the lease on |
| OutboxProtocol.PutOffForTheDelay | internal/outbox/worker.go:79-109 | a failure is recorded with its error; with attempts left the message is claimable again exactly after the delay of its attempt, otherwise it is dead |
| OutboxProtocol.MessageKept | internal/outbox/repository.go:43-118 | in every run a message keeps the kind, payload and limit it was enqueued with, and before its first claim the time set for it |
| OutboxProtocol.AlwaysExclusive | internal/outbox/repository.go:73-99 | if no claim outlives its lease, crashes or not, the holder has the message to itself |
| OutboxProtocol.HeldByOneWorker | internal/outbox/repository.go:73-99 | then no two workers hold the same message |
| OutboxProtocol.SettledForGood | internal/outbox/repository.go:101-118 | then done and dead are final |
| OutboxProtocol.AttemptsAreBounded | internal/outbox/worker.go:80-107 | if no worker vanishes either, a message is claimed at most max_attempts times and is settled after the last |
| OutboxProtocol.ThreatRealised | internal/outbox/repository.go:101-118 | a worker that holds a settled message and could reverse the verdict does so within two steps |
| OutboxProtocol.FinalIffUnthreatened | internal/outbox/repository.go:101-118 | a verdict stands in every continuation iff no live claim can reverse it |
| OutboxProtocol.LateFailureBuriesDelivered | internal/outbox/repository.go:108-118 | a run in which a late failure turns a delivered message dead |
| Limiter.WithDefaults | pkg/ratelimit/ratelimit.go:106-117 | every usable setting is kept and every other becomes 5 attempts, 5 minutes or 15 minutes |
| Limiter.LockEndIsFixed | pkg/ratelimit/ratelimit.go:40-50 | no failure recorded during a lock moves its end |
| Limiter.OneLifeCounts | pkg/ratelimit/ratelimit.go:40-50 | failures inside one window are counted without loss |
| Limiter.LockedFromTheLimit | pkg/ratelimit/ratelimit.go:40-50 | from the MaxAttempts-th failure of a counter's life the identifier is locked whenever one is recorded |
| Limiter.AdmittedChain | pkg/ratelimit/ratelimit.go:179-227 | how each admitted failure follows the one before |
| Limiter.SpacedOut | pkg/ratelimit/ratelimit.go:179-227 | admitted failures a bound apart are at least a window apart |
| Limiter.WindowBound | pkg/ratelimit/ratelimit.go:179-227 | with lockout no shorter than window, any window-long interval holds at most max(M, 2M - 2) <= 2M - 1 admitted failures, or M for a window of one instant |
| Limiter.WindowBoundIsReached | pkg/ratelimit/ratelimit.go:179-227 | for every such configuration, a sequence that reaches the bound |
| Limiter.ShortLockoutBreaksTheBound | pkg/ratelimit/ratelimit.go:40-50 | for every configuration with a shorter lockout, a sequence that exceeds the bound |
| Limiter.BoundHoldsIff | pkg/ratelimit/ratelimit.go:179-227 | the bound holds for all sequences and intervals iff the lockout is no shorter than the window |
| Limiter.Limiter.New | pkg/ratelimit/ratelimit.go:130-138 | refuses a missing client or purpose; starts with defaults applied and nobody counted |
| Limiter.Limiter.Check | pkg/ratelimit/ratelimit.go:179-196 | refuses exactly while locked, with the time left; store errors by configuration |
| Limiter.Limiter.RecordFailure | pkg/ratelimit/ratelimit.go:204-227 | one atomic record for that identifier and no other |
| Limiter.Limiter.Reset | pkg/ratelimit/ratelimit.go:232-237 | forgets that identifier and no other |
| Sessions.CreateKeepsCoveredIff | pkg/session/manager.go:157-199 | a new session keeps the index complete iff no other of the user's outlives the index's new TTL |
| Sessions.ShrinkingTimeoutStrandsASession | pkg/session/manager.go:157-199 | two logins with a shrunk timeout leave a live session that revocation misses |
| Sessions.ListedForTheTimeout | pkg/session/manager.go:157-199 | a login is in its user's index for exactly the timeout in force then |
| Sessions.ChangesOneField | pkg/session/manager.go:239-342 | each change sets what it names and leaves the rest of the session |
| Sessions.DeleteAllInTwo | pkg/session/manager.go:376-386 | deleting what is listed and then the index is the whole revocation |
| Sessions.AfterListOneMore | pkg/session/manager.go:351-373 | looking one id up advances the specified state by that id |
| Sessions.Manager.Save | pkg/session/manager.go:388-401 | writes with the remaining lifetime, or not at all once that is over |
| Sessions.Manager.Create | pkg/session/manager.go:157-199 | the new session and the re-armed index |
| Sessions.Manager.Get | pkg/session/manager.go:211-234 | returns what is live and not idle; removes what is not |
| Sessions.Manager.Modify | pkg/session/manager.go:239-342 | changes one field and keeps the expiry; carrying over no MFA time does nothing |
| Sessions.Manager.Delete | pkg/session/manager.go:345-348 | removes that session |
| Sessions.Manager.ListByUser | pkg/session/manager.go:351-373 | the loop returns every visible session of the index and prunes the rest |
| Sessions.Manager.DeleteAllByUser | pkg/session/manager.go:376-386 | removes every listed session and the index |
| SessionProtocol.Invariant | pkg/session/manager.go:157-401 | in every run, stored sessions and copies yet to be saved keep id, user, tenant and times of the session made under that id; an index lists its own user's sessions |
| SessionProtocol.ModifyInTwo | pkg/session/manager.go:239-342 | without interruption a change is its read and its save; it starts exactly on a live session, and otherwise does nothing |
| SessionProtocol.CoveredStepIff | pkg/session/manager.go:157-401 | a step keeps every live session in its user's index iff it is harmless: a login that does not cut the index short, a save whose id is listed, an index dropped when no live session needs it |
| SessionProtocol.CoveredThroughoutIff | pkg/session/manager.go:157-401 | in a whole run every live session is always in its user's index iff every step is harmless |
| SessionProtocol.ListingIsComplete | pkg/session/manager.go:351-373 | after harmless steps the listing shows exactly the sessions Get would return for the user |
| SessionProtocol.RevocationDeletesListed | pkg/session/manager.go:376-386 | a revocation removes what the index lists and nothing else |
| SessionProtocol.RevocationIsCompleteIff | pkg/session/manager.go:376-386 | no live session of the user is left iff all of them were listed |
| SessionProtocol.RevocationIsComplete | pkg/session/manager.go:376-386 | after harmless steps it removes all of the user's sessions and no one else's |
| SessionProtocol.CopyComesBack | pkg/session/manager.go:239-254 | a copy under way can be saved and touched, and Get returns it |
| SessionProtocol.StaysGoneIff | pkg/session/manager.go:211-401 | a removed session is returned in no continuation iff no call has an unexpired copy to save, or the idle timeout is negative |
| SessionProtocol.RevocationIsFinalIff | pkg/session/manager.go:376-386 | none of the revoked sessions is returned in any continuation iff no call has an unexpired copy of one |
| SessionProtocol.TouchUndoesRevocation | pkg/session/manager.go:239-254 | a run, for any session and timeouts, in which a touch brings a revoked session back, unlisted |
| SessionProtocol.LoginDuringRevocation | pkg/session/manager.go:376-386 | a run, for any session and timeouts, in which a revocation drops the index of a session it did not delete |
| SessionProtocol.MadeOnce | pkg/session/manager.go:157-199 | one login, and only one, made the session of a given id |
| SessionProtocol.EverySessionFounded | pkg/session/manager.go:157-342 | every stored session and pending copy goes back to the one login that made it, with its user, tenant, creation time and the expiry that the timeout then in force gave it |
| SessionProtocol.NeverOutlivesTimeout | pkg/session/manager.go:211-342 | however calls interleave, no session is returned past its login plus the timeout in force then |
| SessionProtocol.ActivityIsReal | pkg/session/manager.go:239-254 | the last activity of every stored session and pending copy is the time of its login or of a touch of it in the run |
| SessionProtocol.FlagsAreReal | pkg/session/manager.go:260-342 | its pending flags are those of its login or were set by calls on it |
| SessionProtocol.MfaIsReal | pkg/session/manager.go:260-342 | its second-factor time is unset since login, or was marked or carried over by a call on it |
| SessionProtocol.NeverOutlivesIdleness | pkg/session/manager.go:211-234 | however calls interleave, a returned session was made or touched at most the idle timeout ago |
| SessionProtocol.ReturnedWhileActive | pkg/session/manager.go:211-234 | a stored session is returned as long as its last activity is no older than that and its expiry has not come, and no longer |
| Snowflake.OrIsPack | pkg/snowflake/snowflake.go:56 | shifting and or-ing the fields in a 64-bit word packs them, for every time |
| Snowflake.NextInSequence | pkg/snowflake/snowflake.go:43 | the masked increment counts modulo 4096 |
| Snowflake.Compose | pkg/snowflake/snowflake.go:56 | the id is the packed fields |
| Snowflake.Unpack | pkg/snowflake/snowflake.go:36-57 | an id decodes to its time, node and sequence |
| Snowflake.PackOrder | pkg/snowflake/snowflake.go:36-57 | on one node ids are ordered by time, then sequence |
| Snowflake.LowFields | pkg/snowflake/snowflake.go:36-57 | node and sequence number are read back at any time, even one past the 41 bits |
| Snowflake.NodesNeverCollide | pkg/snowflake/snowflake.go:36-57 | ids of different nodes never meet, at any times |
| Snowflake.OrderEndsWithTheRange | pkg/snowflake/snowflake.go:10-57 | past 41 bits of time the sign flips and the order ends |
| Snowflake.IncreasesIff | pkg/snowflake/snowflake.go:36-57 | an id exceeds the previous one iff the clock has not gone back |
| Snowflake.NumberedFromZero | pkg/snowflake/snowflake.go:36-57 | calls within a new millisecond are numbered from 0, and none waits before all 4096 numbers are used |
| Snowflake.StrictlyIncreasing | pkg/snowflake/snowflake.go:36-57 | over any number of calls and a nondecreasing clock ids strictly increase, waits included |
| Snowflake.BackwardClockRepeats | pkg/snowflake/snowflake.go:36-57 | a clock that goes back repeats an id |
| Snowflake.Generator.New | pkg/snowflake/snowflake.go:28-33 | refuses node numbers outside ten bits |
| Snowflake.Generator.Generate | pkg/snowflake/snowflake.go:36-57 | one step of the specified state, spinning when the millisecond is used up |
| Partitions.StartIncreases | pkg/pgpartition/pgpartition.go:94-97 | later months start later |
| Partitions.DaysInClosedForm | pkg/pgpartition/pgpartition.go:94-97 | months counted one by one start where the closed form of the Gregorian calendar puts them |
| Partitions.CalendarRepeats | pkg/pgpartition/pgpartition.go:94-97 | 400 years have 146097 days |
| Partitions.UnixEpoch | pkg/pgpartition/pgpartition.go:94-97 | January 1970 begins 719528 days after year zero |
| Partitions.MonthTextReads | pkg/pgpartition/pgpartition.go:84-88 | the name's suffix reads as year and month |
| Partitions.MonthOf | pkg/pgpartition/pgpartition.go:94-97 | an instant lies between the start of its month and of the next |
| Partitions.NamesAreDistinct | pkg/pgpartition/pgpartition.go:84-88 | months have distinct partition names, none of them the backstop's |
| Partitions.NamesStaySafe | pkg/pgpartition/pgpartition.go:52-88 | every name built into a statement is as safe an identifier as the table's own |
| Partitions.MonthlyIsValid | pkg/pgpartition/pgpartition.go:84-97 | the calendar scheme meets what the theorems ask of a scheme |
| Partitions.OverlapIsASharedInstant | pkg/pgpartition/pgpartition.go:110-140 | two ranges clash exactly if they share an instant, so adjacent months never do |
| Partitions.CreateRangeKeeps | pkg/pgpartition/pgpartition.go:130-138 | attaching an accepted range keeps the table sound |
| Partitions.InsertStores | pkg/pgpartition/pgpartition.go:16-28 | an accepted write adds that row and changes no other count |
| Partitions.KeepAndDiscard | pkg/pgpartition/pgpartition.go:334-344 | splitting rows by a range loses and invents none |
| Partitions.RestIsUncovered | pkg/pgpartition/pgpartition.go:341-352 | after the move no remaining backstop row is covered, so it can be attached again |
| Partitions.DueIsExpired | pkg/pgpartition/pgpartition.go:182-224 | the listing lets the manager drop exactly the expired partitions |
| Partitions.Manager.New | pkg/pgpartition/pgpartition.go:68-76 | refuses unsafe names; as many months ahead as asked for, at least one |
| Partitions.Manager.Backstop | pkg/pgpartition/pgpartition.go:144-155 | provides the backstop unless a relation has its name |
| Partitions.Manager.Ensure | pkg/pgpartition/pgpartition.go:105-142 | the loop equals its specification, cut short or not |
| Partitions.Manager.List | pkg/pgpartition/pgpartition.go:182-224 | readable ranges, then the backstop |
| Partitions.Manager.DropOlderThan | pkg/pgpartition/pgpartition.go:259-279 | drops expired partitions in order, never the backstop or one with unreadable bounds |
| Partitions.MoveRows | pkg/pgpartition/pgpartition.go:328-344 | detaches the backstop and moves the month's rows out; fails iff no backstop is attached under that name |
| Partitions.AttachAgain | pkg/pgpartition/pgpartition.go:345-352 | attaches both again; fails iff another range overlaps the month |
| Partitions.Manager.Adopt | pkg/pgpartition/pgpartition.go:310-356 | the transaction succeeds iff the month can be taken over, counts the moved rows, and changes nothing on an error |
| PartitionProtocol.EnsureMonthsOutcome | pkg/pgpartition/pgpartition.go:114-141 | only months with free names are appended; success iff every month was ready beforehand |
| PartitionProtocol.EnsureMonthsNames | pkg/pgpartition/pgpartition.go:114-141 | a success reports exactly the missing months, in order |
| PartitionProtocol.EnsureSucceedsIff | pkg/pgpartition/pgpartition.go:105-155 | exactly when a call succeeds, in terms of the state before it |
| PartitionProtocol.EnsureTilesIff | pkg/pgpartition/pgpartition.go:105-142 | a successful call leaves the window without a gap iff every month whose name was taken was covered |
| PartitionProtocol.BackstopAttachedIff | pkg/pgpartition/pgpartition.go:144-155 | exactly when the backstop is attached afterwards, and then every write is accepted |
| PartitionProtocol.NameAloneLeavesAGap | pkg/pgpartition/pgpartition.go:120-126 | a relation with the month's name makes a successful call leave the current month uncovered |
| PartitionProtocol.AdoptEffect | pkg/pgpartition/pgpartition.go:310-356 | taking a month over keeps every row, empties the backstop of the month and covers it |
| PartitionProtocol.AdoptableIff | pkg/pgpartition/pgpartition.go:310-356 | a month can be taken over exactly if its name is free, the backstop is attached under its own name, and no instant of it has a partition |
| PartitionProtocol.AdoptedExpires | pkg/pgpartition/pgpartition.go:310-356 | a month taken over is dropped in its turn, when its end is past |
| PartitionProtocol.DropKeepsTheRest | pkg/pgpartition/pgpartition.go:259-279 | dropping any of the expired partitions loses no row dated from the cutoff on |
| PartitionProtocol.CallDropsExpired | pkg/pgpartition/pgpartition.go:259-279 | a call, cut short or not, drops some of the expired partitions and nothing else |
| PartitionProtocol.DropIsComplete | pkg/pgpartition/pgpartition.go:259-279 | a call that reaches them all, in any order, drops exactly the expired partitions |
| PartitionProtocol.AlwaysSound | pkg/pgpartition/pgpartition.go:105-356 | in every run ranges are disjoint, rows lie in their ranges, and the backstop holds a row only where no range does |
| PartitionProtocol.RowsAreConserved | pkg/pgpartition/pgpartition.go:105-356 | over any stretch without a drop past its date, a row is stored as often as before plus as often as accepted |
| Like.EscapedPrefix | pkg/dberr/like.go:31-38 | escaped text before any pattern consumes exactly that text |
| Like.EscapedMatchesItself | pkg/dberr/like.go:31-38 | the escaped text matches itself and nothing else |
| Like.SearchMatchesSubstrings | pkg/dberr/like.go:10-38 | between percent signs it matches exactly the texts that contain it |
| Like.EscapeInjective | pkg/dberr/like.go:31-38 | distinct texts have distinct patterns |
| Syslog.FrameParses | pkg/auditsink/syslog.go:94-103 | a frame is read back off the front of any stream |
| Syslog.StreamRoundTrip | pkg/auditsink/syslog.go:94-103 | concatenated frames parse back to exactly the messages |
| Syslog.ParseIsCanonical | pkg/auditsink/syslog.go:94-103 | a stream that parses is the stream of what it parses to |
| Syslog.Writer.WriteLocked | pkg/auditsink/syslog.go:83-109 | dials if needed; a failed write leaves any part of the frame on the connection |
| Syslog.Writer.Write | pkg/auditsink/syslog.go:64-81 | one retry on a new connection, not over UDP; a failed retry leaves that connection open |
| Syslog.CallsAccounted | pkg/auditsink/syslog.go:64-109 | after any calls the octets on the connection are the frames of its messages and the torn ones |
| Syslog.TornByRetryIff | pkg/auditsink/syslog.go:64-81 | torn octets are there after a call iff its retry failed part-way, or they were there before a first try that worked |
| Syslog.CollectorReadsEveryMessageIff | pkg/auditsink/syslog.go:64-109 | the collector reads exactly the messages written iff no torn octets are on the connection and none was empty |
| Syslog.TornLineIsMisread | pkg/auditsink/syslog.go:64-81 | two calls after which the collector reads one line made of both messages |
| Syslog.SanitizedIsClean | pkg/auditsink/rfc5424.go:109-131 | only characters from ! to ~ remain, a text of up to 48 of them stays as it is, and cleaning again changes nothing |
| Syslog.SanitizeHeader | pkg/auditsink/rfc5424.go:113-131 | the loop yields the first 48 printable characters, or a dash |
| Syslog.HeaderRoundTrip | pkg/auditsink/rfc5424.go:80-107 | the first seven spaces delimit the header, whatever the fields contain; the rest is the body |
| Syslog.PriorityRoundTrip | pkg/auditsink/rfc5424.go:62-107 | facility and outcome are read back from the first field |
| Syslog.TimeReads | pkg/auditsink/rfc5424.go:83-101 | year, month, day, hour, minute and second are read back from their places in the timestamp |
| Syslog.FractionReads | pkg/auditsink/rfc5424.go:83-101 | the fraction has no trailing zeros and reads back as the nanoseconds |
| Bits.OrIsSum | pkg/crypto/identifier.go:56-66 | or-ing a number into the bits that a shift has freed adds it |
| Bits.ShrIsQuotient | pkg/crypto/identifier.go:59-65 | shifting right divides by a power of two |
| Bits.AndIsRemainder | pkg/crypto/identifier.go:59-65 | and-ing with a mask of ones is the remainder |
| Base64.Join | pkg/crypto/identifier.go:58-64 | the shifted and or-ed bytes are the bytes side by side |
| Base64.Emit | pkg/crypto/identifier.go:59-65 | a shift and a mask cut out one six-bit field |
| Base64.Regroup | pkg/crypto/identifier.go:54-66 | the six-bit fields of a word give its bytes back |
| Base64.AlphabetOfTheStandard | pkg/crypto/identifier.go:50-69 | the two alphabets of RFC 4648: runs from A, a and 0, and the two characters that differ |
| Base64.GroupRoundTrip | pkg/crypto/identifier.go:56-66 | a group, full or cut short, reads back as its bytes and has no padding character |
| Base64.RoundTrip | pkg/crypto/identifier.go:50-69 | decoding gives every byte string back, for both alphabets, padded or not |
| Base64.EncodedLength | pkg/crypto/identifier.go:50-69 | ceil(4n/3) characters, or 4 * ceil(n/3) with padding |
| Base64.EncodersAgree | pkg/mailer/mailer.go:339-364 | the two encoders agree up to two characters and padding |
| Base64.EncodeUrl | pkg/crypto/identifier.go:50-69 | the loop by threes computes the unpadded URL-safe encoding |
| Base64.ShiftIn | pkg/mailer/mailer.go:344-349 | the inner loop assembles the word and counts the bytes |
| Base64.EncodeStd | pkg/mailer/mailer.go:339-364 | the loop computes the padded standard encoding |

## Left out

- Gin handlers, middleware, routes, wiring, events, metrics, logging, and lookups of display names: no hard
  state.
- PostgreSQL, Redis, gorm and Casbin internals: their semantics are the step rules (atomic transaction, key
  with a time to live, matcher), not models of their code.
- The queries of one lookup, or of one policy load, are read as one snapshot of the tables; the source runs
  them outside a transaction (app/adapters_authz.go:76-234).
- `PermissionsForUser` (pkg/authz/service.go:168-183): a union over the same bindings, only easy members.
- The Redis purge after `InvalidateAll` (pkg/authz/cache.go:182-199) and freshness after it beyond the
  staleness bound.
- JSON is taken to be lossless: a Redis payload is a sequence of records, an audit body a given text.
- Creating, moving and deleting orgs, and rows deleted softly in the past: that paths follow parents is a
  hypothesis of `Orgs.AncestryIsTheTreeIff`, and nothing else rests on it.
- Making an access request is one step; the decision reason is not stored.
- Creating, reading and listing sessions are one step each, though they are several Redis commands;
  `CountActive` and `StepUpFresh` would only add easy members.
- Widths of ids other than the snowflake's: database ids are unbounded integers.
- The limiter's key hashing and its `Many` variants (pkg/ratelimit/ratelimit.go:150-160, 259-300).
- OutboxProtocol.EveryMessageExplained: a batch claim is a sequence of single claims;
  `Outbox.Repository.Claim` has the batch.
- Outbox.Repository.Enqueue: a producer that sets status, attempts or creation time itself is not modelled; a
  message starts pending with no attempts.
- BindingCache.CachedBindingProvider.InvalidateAll: what the background purge removes later is not part of the
  contract.
- Partitions.Manager.DropOlderThan: drops go in order of attachment, because names have no order in the model;
  the theorems hold for any order.
- Partitions.Manager.Adopt: a range partition created by hand under the backstop's own name is not modelled;
  detaching would take that range.
- Partitions.Manager.List: partitions come in the order they were attached; the order by name and the text
  form of bounds are not modelled, only whether they can be read.
- `DefaultRows` (pkg/pgpartition/pgpartition.go:287-298) and `encodeRFC2047` (pkg/mailer/mailer.go:330-337):
  one-line readers.
- SMTP, SMS, webhook, SAML, OIDC, LDAP and the other domains of the repository.
