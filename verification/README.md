# Realmroot, verified

A Dafny model of the parts of Realmroot that decide who may do what, and for how long: Agent access (requests, approvals,
entitlements, token leases, revocation), the algebra of authorization details (section 2 of RFC 9396), two concurrent
protocols around provider credentials and OAuth clients, the authentication cache of a worker, reference expansion in
OpenAPI documents, and several smaller codecs and stateful cores. Run `dafny verify dfyconfig.toml`.

## How it is modelled

*Concurrency.* A use case reads rows, decides in memory, and commits through one guarded repository call. `Runs.dfy` gives
finite runs whose steps may look back at any earlier state: an event names the state in which its call made its queries, and
its write is applied to the current state under the guard the repository's SQL really has. So a theorem about all runs is a
theorem about every interleaving of the modelled events. Where a promise needs more than the guards give, the hypothesis is
a predicate on single events (`Fresh`, `SameEpoch`), it is shown to hold when calls are atomic, and what happens without it
has an exact condition and a run from the start state.

*Objects.* The repository, the credential store, the connector, the worker's fields, the replay map and the cleanup are also
classes whose methods reassign their fields; at an await they call `Elapse`, whose contract is all they know of other calls.
In an object that is `alone`, `Elapse` changes nothing, so that a contract can also say what a call does with nothing beside it.
Ghost fields record what was read and written in between, so that a contract can say what the result is in terms of it.

*Values.* Identifiers and scopes of the access model are numbers that are only compared. A number in JSON is named by the
text printed for it. Hashes are injective: a context hash is the ordered list of canonical detail texts, a request
fingerprint stands for the request. Key derivation, `Number()` and the answers of other servers are parameters. Times are
whole milliseconds.

## Files

| files | subject |
|---|---|
| `JsText`, `CanonicalJson`, `CanonicalEquality` | UTF-16 strings, `canonicalJson`, when two values print alike |
| `AuthorizationDetails`, `GreedyMatching`, `DetailMatching` | inclusion, equality and assignment of authorization details |
| `EntitlementLifetimes`, `AccessStore`, `AccessPlans`, `AccessEffects`, `AccessRuns` | the access model: rows, guarded writes, plans, events |
| `AccessSoundness`, `AccessSafety`, `AccessTheorems`, `AccessOutcomes`, `AccessDecisions`, `AccessRaces`, `AccessBacking`, `AccessIssues`, `AccessExamples`, `AccessCalls`, `AccessRepository` | what runs keep, what they promise, which statements take effect, when approvals succeed, what races break, when tokens lose their backing, when tokens are issued, runs in which it happens, the calls of a decision, the object |
| `CredentialRefresh`, `ClientGenerations`, `AuthCache` | the three other concurrent protocols |
| `OpenApiReferences`, `ReferenceCycles`, `ReferenceResults`, `ReferenceMeaning` | `dereference`: the function, its left-over references, equal documents, what the expansion contains |
| `PasswordHash`, `RoleScope`, `DpopReplay`, `AccountCleanup`, `AgentCreation`, `ScopeResolution` | the smaller cores |
| `Options`, `Runs`, `Sequences` | shared definitions |

## False as promised

For each of these there is an exact condition, and an input, or a run from the start state, in which it happens.

- `canonicalJson` depends on member order when `localeCompare` ties two different keys (`OrderInsensitiveIffNoTies`, which
  builds the reordering for every tie).
- The greedy matcher of approved details misses valid assignments unless more specific requirements come first
  (`GreedyIsRightIffSpecificFirst`, which builds the approval that is missed).
- An approval computed from an outdated row can shorten that row's lifetime: exactly when, `RewriteKeepsLifetimeIff`; a run,
  `StaleApprovalShortens`.
- An approval can leave two active rows for one use: exactly when, `UniquenessBreaksIff`; a run with the details in two
  orders, `PermutedApprovalsDuplicate`.
- A token can outlive or survive an entitlement it names: exactly at which events, `BackingBreaksIff`; the runs in which it
  never happens, `RunIsBackedIff`. At an issue it happens to a single-use entitlement that was upgraded since it was read,
  and the issue ends the upgraded entitlement (exactly which it ends, `IssueEndsIff`); a run, `TokenOutlivesUpgrade`. At a
  revocation, exactly the tokens issued between its listing and its write stay live, `LiveOnRevokedIff`; a run,
  `TokenSurvivesRevocation`.
- A permission that expired but was never ended blocks later approvals for its slot: exactly when an approval alone succeeds,
  `ApprovalAloneSucceedsIff`, a decision with its retry alike, `DecisionAloneSucceedsIff`; fresh approvals never remove the
  block, `BlockedStaysBlocked`. An approval answered "entitlements changed" keeps what it wrote: exactly when that is
  anything, `EntitlementsChangedIff` and `RefusedApprovalLeavesRowsIff`. A run with both, `BlockedApprovalLeavesRow`.
- An approved request gets no more tokens once another approval has rewritten a row's digest for the details in another
  order: exactly when an issue takes effect, `IssueTakesEffectIff`, and with nothing beside it, `IssueAloneSucceedsIff`; a
  run, `ReorderedApprovalStopsTokens`.
- A reconnection numbered from an outdated credential drops the version, so that one is completed twice: exactly when,
  `VersionDropsIff` and `SecondCompletionIff`; a run, `StaleReconnectRepeatsVersion`.
- A caller that lost its refresh claim can still revoke what another refreshed: exactly when, `InvalidGrantRevokesNewerIff`;
  never while its claim lasts and no account is reconnected, `InTimeCallerRevokesOwn`; a run, `OverdueCallerRevokesNewTokens`.
- An in-place client update can put an old client's secret beside a new client's id: the runs in which it never happens,
  `SecretsOwnedIff`; a run, `StaleUpdateMixesSecrets`. A replacement that crosses a reset can misresolve a generation: exactly when,
  `ReplaceMisresolvesIff`; a run, `ReplaceAcrossResetMisresolves`.
- An earlier configuration read can replace an instance built from a later one: exactly when, `MovesBackIff`; the runs in
  which it never happens, `NeverBackIffInOrder`; a run in which it does, `EarlierReadReplacesLater`.
- A local `$ref` can remain without any cycle (`UnresolvedIff`, `MisledReferenceRemains`).
- A DPoP proof is accepted twice in the instant where eviction and freshness meet: exactly when, `ReplayIff`; a run,
  `ProofAcceptedTwice`.

## Model

| member | source | states |
|---|---|---|
| JsText.QuotedUniquelyDecodable | server/usecases/external-resources.ts:3226-3229 | a quoted string and whatever follows it determine the string and the rest, lone surrogates included |
| CanonicalJson.CanonicalPrintsNormalForm | server/usecases/external-resources.ts:3221-3230 | `canonicalJson` is plain printing of the value with members sorted at every depth |
| CanonicalJson.UniquelyDecodable | server/usecases/external-resources.ts:3221-3230 | printed text, with any continuation, determines the value and the continuation |
| CanonicalEquality.CanonicalEqualIffNormalFormEqual | server/usecases/agent-identities.ts:976-985 | equal canonical texts exactly for equal sorted forms, for any key comparison |
| CanonicalEquality.CanonicalEqualIffSame | server/usecases/external-resources.ts:3221-3230 | for values without tied keys, equal canonical text exactly when the values are equal up to member order at every depth |
| CanonicalEquality.OrderInsensitiveIffNoTies | server/usecases/external-resources.ts:3224-3225 | a value prints like every reordering of itself exactly when no object in it has two different keys that compare equal |
| AuthorizationDetails.IsAuthorizationDetailsSubset | server/usecases/external-resources.ts:3133-3141 | the removal loop decides multiset inclusion of the canonical texts |
| AuthorizationDetails.ExactIffSameMultiset | server/usecases/external-resources.ts:3143-3148 | the sorted comparison decides multiset equality of the canonical texts |
| AuthorizationDetails.MutualInclusionIffExact | server/usecases/external-resources.ts:3133-3148 | inclusion both ways holds exactly when the lists are exact |
| AuthorizationDetails.ExactIffRearranges | server/usecases/external-resources.ts:3143-3148 | exact lists are those with a bijection of positions between canonically equal details |
| DetailMatching.AuthorizationDetailsMatchRequest | server/usecases/external-resources.ts:3150-3164 | the loop that splices candidates computes the greedy decision, with its length and duplicate tests |
| GreedyMatching.GreedyIsSound | server/usecases/external-resources.ts:3153-3163 | a greedy success yields a one-to-one pairing in which every requirement is satisfied |
| GreedyMatching.GreedyIsComplete | server/usecases/external-resources.ts:3153-3163 | a pairing implies greedy success when candidates that serve an earlier requirement are interchangeable for later ones |
| DetailMatching.MatchImpliesAnswers | server/usecases/external-resources.ts:3150-3164 | a match means distinct approved details paired one to one with the requested ones, for every input |
| DetailMatching.GreedyIsRightIffSpecificFirst | server/usecases/external-resources.ts:3150-3164 | a request is matched correctly against every approval exactly when, of two requirements that do not conflict, the earlier is at least as specific |
| EntitlementLifetimes.MergedAllIsJoin | server/usecases/external-resources.ts:1530-1548 | after any approvals a lifetime is the least upper bound in once < until(t) < persistent |
| EntitlementLifetimes.ApprovalOrderIsIrrelevant | server/usecases/external-resources.ts:1530-1548 | the resulting lifetime depends only on which lifetimes were approved |
| EntitlementLifetimes.BothMergesAgree | server/adapters/repos/authorization.ts:1086-1097 | approving a request and granting a permission directly merge lifetimes alike |
| AccessPlans.BuildPlan | server/usecases/external-resources.ts:1530-1572 | the loop over the scopes fills the three lists that the plan function describes |
| AccessEffects.PlannedGrant | server/usecases/external-resources.ts:1530-1572 | the k-th approved entry is for the k-th scope, and is the current row of the context or a row being inserted |
| AccessPlans.EarliestExpiryBounds | server/usecases/external-resources.ts:3475-3478 | a time is within the earliest expiry exactly when it is within every expiry |
| AccessSoundness.RunsAreSound | server/usecases/external-resources.ts:1461-2050 | in every run of the modelled events, however interleaved: one unended row per slot, valid lifetimes, one entitlement of the right context per scope of an approved request, leases that name only their request's entitlements, and nothing decided, ended or issued is ever undone |
| AccessSoundness.DecidedGrantFits | server/adapters/repos/external-resources.ts:938-976 | when the guard lets a decision through, its k-th entitlement is for the k-th scope in the approved context |
| AccessSafety.FreshRunsAreSafe | server/usecases/external-resources.ts:1461-2050 | in runs whose calls are undisturbed in three named respects: every lease is within its entitlements' expiries and dead once one is revoked, at most one active row per agent, resource, connection, details as a multiset, and scope, and lifetimes never shorten |
| AccessSafety.IssuedExpiryBounded | server/usecases/external-resources.ts:1775-1783 | neither kind of token outlives a row it was computed from |
| AccessTheorems.AtomicRunsAreFresh | server/usecases/external-resources.ts:1461-2050 | runs in which each call is atomic satisfy that hypothesis |
| AccessBacking.BackingBreaksIff | server/usecases/external-resources.ts:1461-2050 | an event leaves a lease unbacked exactly when it is an approval that rewrites one of its rows to end before it or to single use, an issue that takes effect on a row stored with an earlier end or as single-use without having been read so, or a revocation that takes effect while a live lease of the row is missing from its listing |
| AccessBacking.RunIsBackedIff | server/usecases/external-resources.ts:1461-2050 | in a run every lease is backed in every state exactly when none of its events is such a one |
| AccessBacking.LiveTokenIsBacked | server/usecases/external-resources.ts:1627-1850 | up to the first such event, an unrevoked, unexpired lease names no revoked entitlement, expires no later than any it names and leaves none single-use |
| AccessBacking.FreshRunsAreBacked | server/usecases/external-resources.ts:1461-2050 | runs whose calls are undisturbed in the three named respects have no such event |
| AccessBacking.IssueEndsIff | server/adapters/repos/external-resources.ts:800-833 | an issue that takes effect ends exactly the selected entitlements that were single-use as read, whatever lifetime is stored by then |
| AccessIssues.IssueTakesEffectIff | server/adapters/repos/external-resources.ts:1032-1122 | in every interleaving, for a first token and every later one: a lease is written exactly when resource and connection are usable and each selected row is active with the digest of the request's ordered details; then the lease is added, the request consumed and the rows that were single-use as read are ended, and nothing else |
| AccessIssues.IssueAloneSucceedsIff | server/usecases/external-resources.ts:1627-1979 | with nothing beside it, an issue in a usable store succeeds exactly when every selected row carries that digest |
| AccessIssues.AnyNumberOfTokens | server/usecases/external-resources.ts:1627-1979 | while everything selected is persistent and carries it, any run goes on with any number of issues for the request, each adding its lease |
| AccessIssues.ExternalExpiryIff | server/usecases/external-resources.ts:1775-1783 | an external token lasts the seconds its endpoint named, refused exactly when they are not within an hour and every row |
| AccessIssues.NativeExpiryIsLatest | server/usecases/external-resources.ts:1893-1899 | a native token lasts until the latest time within five minutes and every row |
| AccessBacking.LiveOnRevokedIff | server/usecases/external-resources.ts:2020-2073 | in every run, a live lease names a revoked entitlement exactly when it was issued between the listing and the write of the revocation that ended it |
| AccessTheorems.SingleUse | server/usecases/external-resources.ts:1826-1838 | a lease issued while an entitlement was `once` is the only lease ever to name it |
| AccessTheorems.EndedGainsNoLease | server/adapters/repos/external-resources.ts:1032-1063 | no lease is ever issued for an ended entitlement, in any interleaving |
| AccessTheorems.LifetimeIsJoinOfGrants | server/usecases/external-resources.ts:1530-1548 | an entitlement's lifetime is the join of the grants approved for it over the whole run |
| AccessTheorems.ApprovalGrantsLifetime | server/usecases/external-resources.ts:1530-1572 | an approval leaves each entitlement it found or created lasting at least as long as was granted |
| AccessOutcomes.OutcomeIsTruthful | server/adapters/repos/external-resources.ts:594-627 | the repository reports success exactly when it stored the decision |
| AccessOutcomes.InsertTakesEffectIff | server/adapters/repos/external-resources.ts:978-1030 | of the batch's inserts, each takes effect exactly when its own guard held in the state the batch met |
| AccessOutcomes.RolledBackIff | server/adapters/repos/external-resources.ts:594-627 | the batch is rolled back exactly when one of its updates would take a slot that another unended row holds in that state |
| AccessOutcomes.OtherRowsStay | server/adapters/repos/external-resources.ts:594-627 | every row an approval changes or creates is the one it settled on for that row's scope |
| AccessOutcomes.EntitlementsChangedIff | server/adapters/repos/external-resources.ts:622-624 | "entitlements changed" is reported exactly when some insert's guard did not hold |
| AccessOutcomes.RefusedApprovalLeavesRowsIff | server/adapters/repos/external-resources.ts:594-627 | then no request changes, and entitlements change exactly when another insert's guard held or an update altered its row |
| AccessDecisions.ApprovalAloneSucceedsIff | server/usecases/external-resources.ts:1514-1608 | approved with nothing running beside it, a request is granted exactly when no expired but unended row holds a slot it needs |
| AccessDecisions.BlockedStaysBlocked | server/usecases/external-resources.ts:1602-1609 | no approval whose reads are fresh ends or revives such a row, so the retry fails too |
| AccessDecisions.AskIsApprovedIff | server/usecases/external-resources.ts:1002-1014 | a new request is approved at once exactly when each of its scopes has a reusable row in its context, and then names such a row for each; else it is pending and names none |
| AccessRaces.RewriteKeepsLifetimeIff | server/usecases/external-resources.ts:1532-1547 | a rewritten row keeps its stored lifetime exactly when that is within what was read or what is granted |
| AccessRaces.UniquenessBreaksIff | server/usecases/external-resources.ts:1514-1572 | an event leaves two active rows for one use exactly when it is an approval that is not rolled back, its own row for a scope is active afterwards, and the use has another active row, which it did not find |
| AccessExamples.StaleApprovalShortens | server/adapters/repos/external-resources.ts:597-607 | a run from the empty store in which a persistent permission is cut to five seconds |
| AccessExamples.PermutedApprovalsDuplicate | server/db/schema/resource-scope-entitlement-tables.ts:65-73 | a run in which the same details approved in two orders leave two active rows |
| AccessExamples.ReorderedApprovalStopsTokens | server/adapters/repos/external-resources.ts:1032-1064 | a run in which a request approved for ever gets no token after another approval of the same details in another order |
| AccessExamples.TokenSurvivesRevocation | server/usecases/external-resources.ts:2020-2073 | a run in which a live token names a revoked entitlement |
| AccessExamples.TokenOutlivesUpgrade | server/usecases/external-resources.ts:1775-1838 | a run in which a token issued for a single-use permission outlives, and consumes, the permission it was extended to |
| AccessExamples.BlockedApprovalLeavesRow | server/adapters/repos/external-resources.ts:622-623 | a run in which an expired row blocks an approval, whose other row stays active while its request is pending |
| AccessRepository.Repository.ApproveAccessRequestWithEntitlements | server/adapters/repos/external-resources.ts:594-627 | the batch of guarded statements makes exactly the specified transition and reports its outcome, or changes nothing |
| AccessRepository.Repository.DecideAgentAccessRequest | server/usecases/external-resources.ts:1461-1611 | with other calls at every await: what it read and what its writes reported fix the result, including when it tries a second time and that it never tries a third; each write is the plan of this approval from the rows read before it; soundness is kept |
| AccessCalls.OkIff | server/usecases/external-resources.ts:1581-1611 | success is answered exactly when one of its writes made the request approved, or the request was found approved after one that did not |
| AccessCalls.DecisionAloneSucceedsIff | server/usecases/external-resources.ts:1461-1611 | with nothing beside it, a decision succeeds, at the first attempt or the second, exactly when no expired but unended row holds a slot it needs |
| CredentialRefresh.OneCompletionPerVersion | server/usecases/external-resources.ts:2602-2673 | in any run, between two completions of one version there is a reconnection that dropped the version |
| CredentialRefresh.SecondCompletionIff | server/usecases/external-resources.ts:303-314 | after a completion, any run can go on without such a reconnection to complete that version again exactly when the stored version is not above it |
| CredentialRefresh.CompletesAtMostOnce | server/adapters/repos/external-resources.ts:308-329 | no claim completes twice, in any run |
| CredentialRefresh.LostClaimIsInert | server/adapters/repos/external-resources.ts:308-345 | a claim that was taken over can never again complete or release |
| CredentialRefresh.TakeoverWaits | server/usecases/external-resources.ts:2602-2622 | another caller gets the claim for a version only 15 s after a caller that is still waiting |
| CredentialRefresh.StaleReconnectRepeatsVersion | server/usecases/external-resources.ts:303-314 | a run in which version 2 is completed twice after an outdated reconnection |
| CredentialRefresh.OverdueCallerRevokesNewTokens | server/usecases/external-resources.ts:2676-2680 | a run in which a caller without its claim revokes the credential another has just refreshed |
| CredentialRefresh.InvalidGrantRevokesNewerIff | server/usecases/external-resources.ts:2676-2680 | in every run, `invalid_grant` revokes tokens stored after the caller's claim exactly when the credential is active and has another version than the caller claimed, or was reconnected since |
| CredentialRefresh.InTimeCallerRevokesOwn | server/usecases/external-resources.ts:2676-2680 | with no reconnection since its claim, a caller within its 15 s can only revoke what it claimed |
| CredentialRefresh.CredentialStore.RefreshConnectionToken | server/usecases/external-resources.ts:2584-2682 | each result exactly when: the stored token had over 30 s left; the claim was refused; the payload has no refresh token; the claim was held, or lost, at the completion; the endpoint refused; the call failed. A refreshed token is what is stored; no claim is left behind unless the payload lacks a refresh token |
| ClientGenerations.RunsAreSound | server/usecases/connectors.ts:733-772 | in every interleaving the retired list holds the generations before the current one in order, once each, with the client registered for it |
| ClientGenerations.GenerationsResolveForever | server/usecases/external-resources.ts:2759-2768 | exactly the generations up to the current one resolve, each to the client registered for it, and keep doing so |
| ClientGenerations.SecretsOwnedIff | server/usecases/connectors.ts:703-772 | in every run at all, each stored client has its own secret in every state exactly when no in-place update is written over another client than it was computed from |
| ClientGenerations.ResolvedSecretsMatch | server/usecases/external-resources.ts:2764-2768 | if no in-place update crosses a rotation, every resolved client comes with its own secret |
| ClientGenerations.ReplaceAcrossResetMisresolves | server/usecases/connectors.ts:176-197 | a run in which a replacement computed before an administrative reset passes the check after it and misresolves the first generation |
| ClientGenerations.ReplaceKeepsSoundIff | server/usecases/connectors.ts:733-772 | a replacement leaves the retired list right exactly when it is turned away or the clients registered so far are those it read |
| ClientGenerations.ReplaceMisresolvesIff | server/usecases/external-resources.ts:2759-2768 | and some generation resolves to a client not registered for it exactly otherwise |
| ClientGenerations.StaleUpdateMixesSecrets | server/usecases/connectors.ts:703-724 | a run in which a generation resolves to a client with another client's secret |
| ClientGenerations.ConnectorStore.EnsureDynamicConnectorScopes | server/usecases/connectors.ts:609-784 | from the server's answers: which generation is returned or that it fails, and exactly what is written. What is stored are the scopes the server named, or those asked for if it named none; an answer that omits one fails and writes nothing; the returned generation covers the required scopes |
| AuthCache.RunsAreSound | server/worker.ts:118-208 | in every interleaving the cached fields belong together and rest on a read begun at most 10 s before their last validation |
| AuthCache.SlowPathReturnsLoaded | server/worker.ts:143-208 | a call that loaded its configuration returns an instance with exactly that key and its own bindings |
| AuthCache.FastPathIsRecent | server/worker.ts:133-142 | an instance served without reading, to a request without a resource token, rests on a read begun less than 15 s ago |
| AuthCache.BoundIsTight | server/initialization-deadline.ts:12-24 | a run serves an instance 14 999 ms after the only read began |
| AuthCache.NeverBackIffInOrder | server/worker.ts:143-208 | a run never moves back exactly when its calls finish in the order in which they began |
| AuthCache.OneAtATimeNeverGoesBack | server/worker.ts:143-208 | a worker in which no call begins while another waits never moves back |
| AuthCache.EarlierReadReplacesLater | server/worker.ts:193-205 | a run in which the instance of an earlier read replaces one of a later read |
| AuthCache.WorkerFields.GetAuth | server/worker.ts:118-208 | for the fields of the worker, with other requests at both awaits: the cached instance is returned exactly when it serves; else the one for the loaded key, unless the load or a build that was needed failed |
| AuthCache.WorkerFields.LoadSecurityPolicy | server/worker.ts:210-222 | the policy used was read from this database, beginning less than 10 s ago; the cached one exactly when it serves, none exactly when a read that was needed failed |
| ReferenceCycles.UnresolvedIff | scripts/openapi-semantic-snapshot.ts:47-64 | a local reference is left exactly when a walk over followed references returns to one being expanded or meets an object whose own `$ref` resolves to a reference text |
| ReferenceResults.UnresolvedIffCyclic | scripts/openapi-semantic-snapshot.ts:47-64 | if no `$ref` member is an object, a local reference is left exactly when the followed references form a cycle |
| ReferenceResults.MisledReferenceRemains | scripts/openapi-semantic-snapshot.ts:51-57 | a document without a cycle whose expansion leaves a local reference |
| ReferenceResults.MemberOrderIsIrrelevant | scripts/openapi-semantic-snapshot.ts:59-63 | documents equal up to member order have the same expansion |
| ReferenceMeaning.ReadsAlike | scripts/openapi-semantic-snapshot.ts:47-64 | the expansion reads along every path of members and indices as the document does when references are followed |
| ReferenceMeaning.ThrowsIff | scripts/openapi-semantic-snapshot.ts:47-64 | there is no expansion exactly when such a reading runs into a pointer that cannot be walked |
| ReferenceMeaning.NothingFollowed | scripts/openapi-semantic-snapshot.ts:48-63 | a value in which no reference is followed expands to itself, with its members sorted at every depth |
| ReferenceMeaning.ReferenceBecomesPointee | scripts/openapi-semantic-snapshot.ts:51-57 | without a cycle, a reference expands to exactly what its pointee expands to on its own |
| ReferenceMeaning.PointsTo | scripts/openapi-semantic-snapshot.ts:51-57 | a pointer written from keys without slashes resolves to exactly the value those members and indices reach |
| PasswordHash.Base64UrlRoundTrip | server/domain/password.ts:60-73 | decoding inverts encoding for every number of bytes |
| PasswordHash.VerifyIffSameKey | server/domain/password.ts:9-34 | a password verifies against a record exactly when it derives the recorded key; every password verifies against its own record |
| PasswordHash.TimingSafeEqual | server/domain/password.ts:51-58 | the exclusive-or loop is zero exactly on equal arrays |
| RoleScope.ComponentRoundTrip | shared/organization-access.ts:80-95 | percent-decoding inverts percent-encoding on well-formed text, and encoding fails only on lone surrogates |
| RoleScope.RoleScopeRoundTrip | shared/organization-access.ts:80-95 | decoding gives back the pair exactly when neither part is empty, otherwise null |
| RoleScope.RoleScopeInjective | shared/organization-access.ts:80-82 | no two pairs are encoded alike |
| DpopReplay.UsedProofs.ConsumeDpopJti | examples/native-resource-server/server.ts:162-170 | the loop evicts exactly the entries that are over, then accepts and records a key that is not left |
| DpopReplay.NoReplayBeforeExpiry | examples/native-resource-server/server.ts:154-170 | over every run with a clock that does not go back, a key and identifier are not accepted twice before second iat + 300 |
| DpopReplay.AcceptedAgainIff | examples/native-resource-server/server.ts:162-170 | in every run, a proof whose key and identifier were accepted before is let through by the map exactly when the last second of the one accepted last has begun |
| DpopReplay.ReplayIff | examples/native-resource-server/server.ts:156-166 | in every run, the proof accepted last for its key and identifier passes both tests again exactly when its last second has begun at the eviction and had not passed at the freshness test |
| DpopReplay.ProofAcceptedTwice | examples/native-resource-server/server.ts:154-170 | a run in which one proof is accepted at its time and 300 s later |
| DpopReplay.ReplayKeyInjective | examples/native-resource-server/server.ts:167 | the map's key determines thumbprint and identifier |
| AccountCleanup.FinishLosesNoKey | server/adapters/repos/account-deletion.ts:105-153 | in every interleaving of workers and uploads a finished job removes its row only if it was given every key in it |
| AccountCleanup.EveryItemIsAttempted | server/usecases/account-deletion.ts:39-51 | every listed token is tried once, in order, whatever becomes of the others |
| AccountCleanup.GoneWasRevoked | server/usecases/account-deletion.ts:39-51 | with any number of workers and over all their invocations, a token that is gone was cleared by some worker directly after that worker had revoked it |
| AccountCleanup.FinishedMeansAllDone | server/usecases/account-deletion.ts:29-61 | over all invocations, a finished job ends one pass in which every file was erased, both listings succeeded, every listed token was revoked and cleared, and the deletion was published last |
| AccountCleanup.Cleanup.ProcessJob | server/usecases/account-deletion.ts:29-65 | with other workers at every await: every file is tried and every token of the user that is left was tried; the job is finished exactly when every call succeeded, leaves none of them and gives up its row, any other is retried later |
| AccountCleanup.BackoffDoubles | server/adapters/repos/account-deletion.ts:155-163 | a failed job waits a minute, then twice as long each time, up to an hour |
| AccountCleanup.Cleanup.ProcessAccountDeletionCleanup | server/usecases/account-deletion.ts:17-72 | with other workers at every await: at most ten jobs, fewer only when none is due or the database failed; no failure is reported exactly when every call succeeded, and then nothing of their users is left |
| AgentCreation.RunsAreSound | server/adapters/repos/agent-identities.ts:224-305 | in every run a reservation stays until its user's account is erased, one Agent per key and one key per Agent, and every answer was reserved while its user existed |
| AgentCreation.RepliesAgreeIff | server/usecases/agent-identities.ts:69-104 | in every run, also across the erasure of accounts, two answers name one Agent exactly when they are for one key, and then they answer one request |
| AgentCreation.ReservationIsForEver | server/usecases/agent-identities.ts:964-974 | a key that cannot be answered, because it was used for another request or its Agent is deleted, can never be answered again, erasure or not |
| AgentCreation.Agents.CreateAgentWithInstallation | server/usecases/agent-identities.ts:69-104 | a reserved key is answered with its Agent, as replayed, exactly for the same request and a live Agent, else with a conflict; any other success means the key is reserved for this request and that Agent, a conflict that the key or the older identity stands in the way, a failure that the key is not reserved or the installation taken; with nothing beside it the result and the state are fixed |
| ScopeResolution.ResolveMembershipScopes | server/usecases/organization-membership-scopes.ts:20-73 | the loops yield exactly what the membership's roles and ownership give for the resource, sorted, each once |
| ScopeResolution.UserEffectiveResourceScopes | server/usecases/resource-scope-entitlements.ts:21-58 | the loops yield exactly the declared scopes that are automatic, entitled in the tenant, or yielded by a counted membership |
| ScopeResolution.FilterOAuthAccessTokenScopes | server/auth-helpers.ts:177-275 | for a user: nothing for a missing application, exactly when access, target or scope is refused, and otherwise exactly the requested scopes that are allowed and, for resource scopes, effective from entitlements, memberships and declarations, and consented |
| ScopeResolution.TokenScopesFailIff | server/auth-helpers.ts:201-252 | the request fails exactly when an OpenID Connect scope is not the client's or, without a code, a resource scope is not |

## Left out

- Hashes, ciphers, signatures and key derivation: injective representations or function parameters.
- HTTP routing, OAuth error texts, audit rows, response projections, webhook delivery and everything rendered.
- Access: the queries of one call see one state, although the code makes them one after the other; the row ids a call
  generates are drawn when it writes.
- Access: the events of the runs are requests, approvals, denials, issues, revocations and the clock. Direct grants of
  permissions (`createAgentPermission`) are modelled only by their merge, coverage checks of connections
  (`revokeUncoveredEntitlements`) as revocations, and administrative endings not at all; nor are rows of users and
  applications.
- Access: identity, visibility, signature and provider checks can only refuse, so a refusal is the absence of an event.
- DecideAgentAccessRequest: denial and the controller checks are outside this method; denial is an event of the runs.
- CanonicalEquality.CanonicalEqualIffSame: objects list distinct keys in the order they are enumerated; `__proto__` keys are
  not modelled.
- JSON numbers: two numbers are equal when they print alike, so `0` and `-0` are one number.
- OpenApiReferences: a result lists members in insertion order, not with integer-like keys first; prototype properties are
  not found by navigation; `openApiSemanticSnapshot`'s own loop, hash and final sort are not modelled.
- CredentialRefresh.OneCompletionPerVersion: for runs in which no reconnection drops the version between the two, because
  with one it fails (`SecondCompletionIff`).
- ClientGenerations.GenerationsResolveForever: within one epoch, because an administrative reset starts generations again.
- AuthCache: timers fire on time, so an await that succeeds ends within its deadline; cache keys joined by newlines are
  taken as injective; an instance's own initialization is success or failure.
- AccountCleanup: erasure of the account itself, the order of jobs with equal due times, and tokens or files stored for a
  user after the erasure.
- AgentCreation: the identity of an earlier version is compared with the request as a whole; the pieces are not listed.
- ScopeResolution: application-only grants, how the organization is chosen, which error name a refused user gets, and
  recorded policy authorizations.
- Scheduled synchronization of scope registries, branding, assets and the administrative user interface.
