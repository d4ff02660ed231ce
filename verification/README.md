# Kong Ingress Controller: state machines and algorithms, verified

The controller turns Kubernetes objects into Kong configuration. Most of it is glue; this project
models the parts whose correctness is a property of whole runs or of all inputs, and proves those
properties. `dafny verify dfyconfig.toml` checks everything.

| file | what it models |
|---|---|
| `GatewayDiscovery.dfy` | EndpointSlice events, the per-slice cache, and the ready and pending gateway clients |
| `CacheSnapshots.dfy` | the 24 object stores, their snapshots, and the change-detecting hash |
| `UpdateProtocol.dfy` | `KongClient.Update`: skip, push, fallback, last-valid recovery, what is remembered |
| `FallbackGeneration.dfy` | the dependency graph and the fallback cache that leaves out or sets back broken objects |
| `ListenerConflicts.dfy` | the two-pass analysis of a Gateway's listeners and their status conditions |
| `StaleStatusSweep.dfy` | the in-place sweep of stale parent statuses of an HTTPRoute |
| `ReferenceIndexer.dfy`, `SecretCollector.dfy` | reference records with two inverted indices, and the collector of cached Secrets built on them |
| `NodeReconciliation.dfy` | Konnect nodes of the controller and its gateways, under failing calls |
| `KonnectBackoff.dfy` | backoff between pushes to Konnect |
| `Hostnames.dfy` | wildcard hostname matching |
| `UpstreamPolicyConflicts.dfy` | Services of a KongUpstreamPolicy that conflict, found through an index |
| `ReferenceGrants.dfy` | the two ReferenceGrant checks |
| `Text.dfy`, `Common.dfy` | string facts (unique splitting, decimal numbers, sorting), shared values |

Code that updates fields or loops is a class or a method proved against a specification function;
the laws are lemmas about those functions and about runs of steps. The cluster, the gateways and
Konnect are environments whose answers are parameters.

## Assumptions

- Each handler is one atomic step. Within one call, the environment answers one question about one object the same way each time.
- Coupling needs ready gateways: with none, a push reports success without storing anything (internal/dataplane/kong_client.go:675-682) while the snapshot is still preserved (line 508). `ProcessCouples` and `RunCoupledExactly` give the exact condition, `NoGatewayDecouples` the failing round.
- A Secret does not leak if no read of that Secret fails; a failed read returns the outer, nil error (internal/controllers/reference/reference.go:105-107). `FailedReadLeaks` is the failing run, `UnreferredCachedExactly` the exact condition, with no assumption on reads.
- `slices.Delete` clears the freed tail (Go 1.22), and the controller name is not empty.
- Listener names are unique within a Gateway. Whether a listener's references resolved is an input, since a later certificate reference can overwrite the reason of an earlier one (internal/controllers/gateway/gateway_utils.go:256-288).
- A client created for an address reports that address as its base URL.
- Gateway instances have distinct hostnames; creating a node under an ID that is in use fails; a listing of nodes that succeeds is complete.
- UIDs have the form of section 3 of RFC 4122 and belong to one kind, resource versions are decimal; the digest (SHA-256 in base 32) has no collisions and is never empty.
- Names and namespaces hold no "/", ":" or "," where keys are joined with them; the lemmas say which.
- Building a configuration is a function of the cache; a dependency resolver returns objects of the cache.
- Errors of several gateways are joined in the order of the gateways, and the first rejection is found in them.
- The wait before a Konnect retry is what the backoff library documents: min(3s·2^attempt, 15min), with an unbounded attempt counter.

## Model

| member | source | states |
|---|---|---|
| GatewayDiscovery.PipelineConserves | internal/clients/manager.go:263-369 | over every run of slice events, deliveries and ticks: once a notification is processed and none waits, ready and pending are disjoint, keyed by their own addresses, and hold exactly the addresses of the cached slices |
| GatewayDiscovery.PipelineTracksDiscoveries | internal/controllers/configuration/kongadminapi_controller.go:113-191 | end to end, read off the events: then the known gateways are exactly the addresses of the latest successful discovery in each slice since it was last absent |
| GatewayDiscovery.CacheIsHistory | internal/controllers/configuration/kongadminapi_controller.go:113-173 | in every run the cache has a key for exactly the slices whose latest event found them, with the endpoints of that discovery, or none if no discovery succeeded |
| GatewayDiscovery.NotifiesExactly | internal/controllers/configuration/kongadminapi_controller.go:113-173 | a notification is sent if and only if the slice's entry changed and discovery did not fail |
| GatewayDiscovery.NotificationFate | internal/clients/manager.go:263-369 | what becomes of each address at a notification, by what was discovered and what the gateway answers |
| GatewayDiscovery.TickFate | internal/clients/manager.go:340-369 | what becomes of each address at a tick |
| GatewayDiscovery.RunKeepsInvariant | internal/controllers/configuration/kongadminapi_controller.go:113-191 | the invariant of both components in every reachable state, also while a notification waits |
| GatewayDiscovery.SilentEventsChangeNothing | internal/controllers/configuration/kongadminapi_controller.go:113-182 | an event without a notification, discovery errors included, leaves the union of the cached sets as it was |
| GatewayDiscovery.AdminAPIServiceReconciler.Reconcile | internal/controllers/configuration/kongadminapi_controller.go:113-182 | cache and notification after an event; a notification carries the union of the cached sets; which events fail |
| GatewayDiscovery.FlattenDiscoveredAdminAPIs | internal/controllers/configuration/kongadminapi_controller.go:185-191 | the list holds exactly the union of the cached sets |
| GatewayDiscovery.SignalExactly | internal/clients/manager.go:263-271 | a notification signals if and only if a known gateway disappeared or the ready set changed |
| GatewayDiscovery.TickSignalsExactly | internal/clients/manager.go:275-281 | a tick signals if and only if the ready set changed, and loses no gateway |
| GatewayDiscovery.ProbeConserves | internal/clients/manager.go:340-369 | readiness moves keep the set of known gateways, are reported exactly when the ready set changes, and keep a client without pod reference ready |
| GatewayDiscovery.AdminAPIClientsManager.AdjustGatewayClients | internal/clients/manager.go:287-333 | the known gateways become the discovered ones, ready clients keep their state, new ones are pending, the flag says whether one was removed |
| GatewayDiscovery.AdminAPIClientsManager.ReconcileGatewayClientsReadiness | internal/clients/manager.go:340-369 | the loops over the two result lists amount to moving each gateway by its own answer |
| GatewayDiscovery.AdminAPIClientsManager.OnDiscoveredAdminAPIsNotification | internal/clients/manager.go:263-271 | maps valid and equal to the discovered addresses; every subscriber gets one signal exactly when it should |
| GatewayDiscovery.AdminAPIClientsManager.OnReadinessReconciliationTick | internal/clients/manager.go:275-281 | the same for a tick |
| GatewayDiscovery.AdminAPIClientsManager.NotifyGatewayClientsSubscribers | internal/clients/manager.go:372-382 | one more signal for each subscriber |
| GatewayDiscovery.CheckPendingGatewayClients | internal/clients/readiness.go:80-117 | exactly the pending gateways for which a client can be created turn ready |
| GatewayDiscovery.CheckAlreadyExistingClients | internal/clients/readiness.go:120-141 | exactly the unready clients with a pod reference turn pending |
| GatewayDiscovery.MovesAreProbed | internal/clients/manager.go:359-366 | applying the two result lists in sequence gives the simultaneous move |
| CacheSnapshots.ListingOrderIrrelevant | internal/store/cache_stores_snapshot.go:76-109 | the order in which a store lists its objects does not reach the hash |
| CacheSnapshots.DecodeUnique | internal/store/cache_stores_snapshot.go:76-109 | the text without separators has one reading as UIDs and versions |
| CacheSnapshots.StreamDeterminesVersions | internal/store/cache_stores_snapshot.go:76-109 | equal texts mean the same (UID, version) pairs in every store |
| CacheSnapshots.VersionsDetermineStream | internal/store/cache_stores_snapshot.go:76-109 | the converse |
| CacheSnapshots.DigestDetectsChange | internal/store/cache_stores_snapshot.go:61-125 | digests agree if and only if every store holds the same versions |
| CacheSnapshots.VersionsDetermineContents | internal/store/cache_stores_snapshot.go:61-125 | if UID and version fix an object, caches with the same versions are equal |
| CacheSnapshots.StreamIgnoresKinds | internal/store/cache_stores_snapshot.go:76-109 | without "one kind per UID" the claim fails: any object of one kind and its twin of another give the same text |
| CacheSnapshots.CacheStores.TakeSnapshotIfChanged | internal/store/cache_stores_snapshot.go:61-125 | nothing for an unchanged digest, else the new digest and a fresh copy equal to the cache |
| CacheSnapshots.CacheStores.TakeSnapshot | internal/store/cache_stores_snapshot.go:17-30 | a fresh cache equal store by store and key by key, so later changes do not reach it |
| CacheSnapshots.CacheStores.CopyStores | internal/store/cache_stores_snapshot.go:127-142 | the copying loop over the stores |
| CacheSnapshots.CacheStores.ComputeText | internal/store/cache_stores_snapshot.go:76-109 | the loops write exactly the text the theorems are about |
| CacheSnapshots.KeyIdentifies | internal/store/cache_key_funcs.go:6-17 | objects of a kind share a key if and only if name and, unless the kind is cluster-wide, namespace agree |
| CacheSnapshots.CacheStores.Add | internal/store/zz_generated_cache_stores.go:146-202 | of this object the new form is stored, every object of another kind, name or namespace is as it was; other kinds are refused |
| CacheSnapshots.CacheStores.Delete | internal/store/zz_generated_cache_stores.go:205-261 | no form of this object is stored, every other object is as it was |
| CacheSnapshots.CacheStores.Get | internal/store/zz_generated_cache_stores.go:87-142 | a stored form of this object, or there is none |
| CacheSnapshots.KindsComplete | internal/store/zz_generated_cache_stores.go:263-290 | the list of stores covers every supported kind |
| UpdateProtocol.RunCoupledExactly | internal/dataplane/kong_client.go:422-629 | over every run, all states up to any point couple the last valid configuration (accepted by all chosen gateways in one push, and the build of the last valid snapshot; or fetched, without snapshot) if and only if every round is skipped or trusts a push that found a gateway or sent the last valid configuration |
| UpdateProtocol.RunKeepsCoupling | internal/dataplane/kong_client.go:422-629 | in particular over every run up to a point as long as gateways are ready |
| UpdateProtocol.ProcessCouples | internal/dataplane/kong_client.go:480-629 | one round keeps the coupling if and only if the push it trusts found a gateway or its configuration was the last valid one |
| UpdateProtocol.NextCouplesExactly | internal/dataplane/kong_client.go:422-525 | the exact condition for one round, fetching and skipping included |
| UpdateProtocol.CouplesAgain | internal/dataplane/kong_client.go:480-629 | a processed round whose trusted push finds a gateway couples, whatever came before |
| UpdateProtocol.LastValidPushKeepsCoupling | internal/dataplane/kong_client.go:545-582 | re-pushing the last valid configuration never decouples, accepted or not |
| UpdateProtocol.SendOutOutcome | internal/dataplane/kong_client.go:668-713 | a successful push to a gateway stores the configuration; a failed or empty one stores nothing |
| UpdateProtocol.PushByAnswers | internal/dataplane/kong_client.go:668-713 | who is asked (all ready gateways, with a database the first), when a push is accepted, which rejection it reports, what is logged and stored, all from the answers |
| UpdateProtocol.ShasByAnswers | internal/dataplane/kong_client.go:691-711 | the hashes kept are those of the answers, sorted |
| UpdateProtocol.RoundAccepted | internal/dataplane/kong_client.go:480-523 | one push; its configuration and cache are remembered; reported if and only if the hashes changed |
| UpdateProtocol.RoundWithoutGateway | internal/dataplane/kong_client.go:668-682 | nothing is sent or stored as last valid, and the round passes for a success |
| UpdateProtocol.RoundFailed | internal/dataplane/kong_client.go:550-557 | failures that are no rejections: nothing more is sent, nothing remembered changes |
| UpdateProtocol.RoundFellBack | internal/dataplane/kong_client.go:559-632 | rejected with an unopposed fallback: the pushes made and what is remembered |
| UpdateProtocol.RoundRecovers | internal/dataplane/kong_client.go:559-582 | rejected otherwise: the last push is the last valid configuration to the gateways ready then, and the round has recovered if and only if all accept it |
| UpdateProtocol.FetchedRecovers | internal/dataplane/kong_client.go:426-438 | without a database and a last valid configuration, the one fetched from a gateway is pushed instead |
| UpdateProtocol.FetchedIgnored | internal/dataplane/kong_client.go:426-438 | otherwise what gateways hold is not asked |
| UpdateProtocol.JoinedErrorFirst | internal/dataplane/kong_client.go:688-693 | the joined error is a rejection if and only if some answer is, and then the first |
| UpdateProtocol.NoGatewayDecouples | internal/dataplane/kong_client.go:668-713 | with no gateway the first round succeeds and remembers a snapshot without configuration |
| UpdateProtocol.SkippedExactly | internal/dataplane/kong_client.go:444-464 | in every run a round is skipped if and only if every store holds the versions of the last processed round |
| UpdateProtocol.NotRepeatedUntilChanged | internal/dataplane/kong_client.go:444-464 | no round is repeated while the cache is unchanged: not a failed one, and not one that found no gateway though gateways are ready now |
| UpdateProtocol.RejectionFallsBack | internal/dataplane/kong_client.go:545-654 | composed with the generator: after a rejection naming objects and an accepted fallback, the gateways hold and the client remembers the build of the generated cache; left out, no broken object is in it and no dependency missing; put back, affected objects are there in their last valid form |
| UpdateProtocol.KongClient.Update | internal/dataplane/kong_client.go:422-525 | the method follows the step function of the run theorems, on the client's own fields |
| UpdateProtocol.KongClient.MaybeTryRecoveringFromGatewaysSyncError | internal/dataplane/kong_client.go:545-582 | fallback only for rejections naming objects, then the last valid configuration |
| UpdateProtocol.KongClient.TryRecoveringWithFallbackConfiguration | internal/dataplane/kong_client.go:586-632 | the fallback cache is preserved only after its push was accepted |
| UpdateProtocol.KongClient.MaybePreserveTheLastValidConfigCache | internal/dataplane/kong_client.go:527-532 | the remembered snapshot, nothing else, changes |
| UpdateProtocol.KongClient.SendOutToGatewayClients | internal/dataplane/kong_client.go:668-713 | hashes, last valid configuration and push log after a push |
| UpdateProtocol.SendToEach | internal/dataplane/kong_client.go:684-697 | no error if and only if every chosen gateway accepts; else the first rejection |
| FallbackGeneration.DepthFirstSearch | internal/dataplane/fallback/graph.go:102-124 | visits exactly the hashes reachable by a path, each once |
| FallbackGeneration.SubgraphObjects | internal/dataplane/fallback/graph.go:102-124 | exactly the source and its direct and indirect dependants; nothing for an unknown source |
| FallbackGeneration.CacheToGraph | internal/dataplane/fallback/cache_to_graph.go:23-62 | vertices are the cached objects, edges lead from dependencies to dependants |
| FallbackGeneration.HashIdentifies | internal/dataplane/fallback/graph.go:31-70 | within a cache a hash names one object |
| FallbackGeneration.HashMeans | internal/dataplane/fallback/graph.go:31-70 | a hash is UID, kind, namespace and name |
| FallbackGeneration.ExclusionClosed | internal/dataplane/fallback/fallback.go:31-61 | without backfilling, the fallback cache holds, with every object, all its dependencies |
| FallbackGeneration.ExclusionDropsBroken | internal/dataplane/fallback/fallback.go:31-61 | no broken object is left in it |
| FallbackGeneration.ExclusionLargest | internal/dataplane/fallback/fallback.go:31-61 | it is the largest such part of the cache |
| FallbackGeneration.GenerateExcludingBrokenObjects | internal/dataplane/fallback/fallback.go:31-61 | the loops delete exactly the affected objects from a fresh copy and list them |
| FallbackGeneration.AffectedComesBack | internal/dataplane/fallback/fallback.go:63-125 | an affected object of the last valid cache is put back in that form |
| FallbackGeneration.HealthyKeptExactly | internal/dataplane/fallback/fallback.go:63-125 | a healthy object keeps its current form if and only if no other form of it depended on an affected object before |
| FallbackGeneration.DependantSetBack | internal/dataplane/fallback/fallback.go:63-125 | so an object that has stopped depending on a broken one is set back to its old form |
| FallbackGeneration.DroppedDependencySetsBack | internal/dataplane/fallback/fallback.go:63-125 | and this happens to any pair of objects: caches, graphs and resolver are given |
| FallbackGeneration.BackfillCompleteExactly | internal/dataplane/fallback/fallback.go:63-125 | after backfilling every object finds what it depended on where it was taken from, in some form, if and only if every dependency of an object put back is put back too or still has a healthy form |
| FallbackGeneration.NothingDeletedComplete | internal/dataplane/fallback/fallback.go:63-125 | so nothing dangles if every object of the last valid cache is still there |
| FallbackGeneration.DeletedDependencyDangles | internal/dataplane/fallback/fallback.go:63-125 | and for any pair of objects it does dangle: an object is set back to a form that needs a deleted one |
| FallbackGeneration.GenerateBackfillingBrokenObjects | internal/dataplane/fallback/fallback.go:63-125 | the loops compute exactly that cache; without a last valid cache, the excluding one |
| ListenerConflicts.FirstOccupantDecides | internal/controllers/gateway/gateway_utils.go:317-359 | after the first pass the lookup maps mean the pairwise conflicts, though each listener met only the first on its port |
| ListenerConflicts.ShareGroup | internal/controllers/gateway/gateway_utils.go:199-228 | sharing a port is symmetric and transitive |
| ListenerConflicts.ConflictRule | internal/controllers/gateway/gateway_utils.go:199-228 | by protocols, ports and hostnames alone: a protocol conflict if and only if two listeners on the port are neither both HTTP nor both among HTTPS and TLS, else a hostname conflict if and only if another has port and hostname |
| ListenerConflicts.StatusByRule | internal/controllers/gateway/gateway_utils.go:363-517 | the conditions in the same terms |
| ListenerConflicts.SpreadIsPairwise | internal/controllers/gateway/gateway_utils.go:460-517 | protocol conflict if and only if some pair on the port is incompatible, else hostname conflict if and only if another listener has port and hostname |
| ListenerConflicts.ClashIsConflict | internal/controllers/gateway/gateway_utils.go:317-359 | a conflict seen in the first pass stands after the second |
| ListenerConflicts.ReasonOrderIndependent | internal/controllers/gateway/gateway_utils.go:460-517 | the reason is the same under any permutation of the listeners |
| ListenerConflicts.FinalMeans | internal/controllers/gateway/gateway_utils.go:363-445 | one Programmed and one Accepted condition, at most one of the others; Programmed is true if and only if refs resolved, no conflict stands and Kong listens there; when each other reason is shown |
| ListenerConflicts.StatusOrderIndependent | internal/controllers/gateway/gateway_utils.go:363-517 | every condition other than a positive ResolvedRefs is the same under any permutation of the listeners |
| ListenerConflicts.OrderIrrelevantExactly | internal/controllers/gateway/gateway_utils.go:363-517 | the whole list of conditions is the same under every permutation if and only if the listener has no conflict, its refs are unresolved, or Kong does not listen there |
| ListenerConflicts.TwoOrdersDiffer | internal/controllers/gateway/gateway_utils.go:317-517 | for any other listener, two orders that differ: put first it shows resolved refs, behind an opponent on its port it does not |
| ListenerConflicts.Opponent | internal/controllers/gateway/gateway_utils.go:199-228 | a listener in conflict has an opponent it clashes with directly |
| ListenerConflicts.ResolvedRefsShownExactly | internal/controllers/gateway/gateway_utils.go:363-410 | for a given order, a positive ResolvedRefs is shown if and only if the first pass saw no problem at all |
| ListenerConflicts.ResolvedRefsOrderDependent | internal/controllers/gateway/gateway_utils.go:363-517 | a literal case: two TCP listeners on one port |
| ListenerConflicts.BuildKongPortMap | internal/controllers/gateway/gateway_utils.go:165-175 | ports by protocol are exactly those Kong listens on |
| ListenerConflicts.FirstLoop | internal/controllers/gateway/gateway_utils.go:236-446 | statuses and lookup maps after the first loop |
| ListenerConflicts.GetListenerStatus | internal/controllers/gateway/gateway_utils.go:230-524 | for every listener name exactly the finished conditions the order theorems are about, pinned by protocols, ports, hostnames, resolved refs and what Kong listens on |
| StaleStatusSweep.KeyIdentifiesTarget | internal/controllers/gateway/httproute_controller.go:755-773 | two references get one key if and only if they mean the same parent |
| StaleStatusSweep.StaleMeaning | internal/controllers/gateway/httproute_controller.go:734-753 | staleness by keys is staleness by parents |
| StaleStatusSweep.SweepKeepsLive | internal/controllers/gateway/httproute_controller.go:734-753 | live and foreign entries survive, in order |
| StaleStatusSweep.SweepHalves | internal/controllers/gateway/httproute_controller.go:734-753 | only stale entries go, and at most half of them, rounded down, stay |
| StaleStatusSweep.SweepChangesIffStale | internal/controllers/gateway/httproute_controller.go:734-753 | the list changes if and only if it has a stale entry |
| StaleStatusSweep.SweepConverges | internal/controllers/gateway/httproute_controller.go:415-422 | repeated reconciles end with exactly the entries that are not stale |
| StaleStatusSweep.PassesLogarithmic | internal/controllers/gateway/httproute_controller.go:415-422 | fewer than 2^n stale entries take at most n passes |
| StaleStatusSweep.PassesTight | internal/controllers/gateway/httproute_controller.go:415-422 | and 2^n of them in a row take more than n |
| StaleStatusSweep.HTTPRoute.DeleteAt | internal/controllers/gateway/httproute_controller.go:744-749 | the shifted slice, the cleared slot, the rest of the array unchanged |
| StaleStatusSweep.HTTPRoute.EnsureNoStaleParentStatus | internal/controllers/gateway/httproute_controller.go:734-753 | the in-place loop, also at indices beyond the shrunken slice, computes the pass and reports removal if and only if an entry was stale |
| ReferenceIndexer.ObjectKeyInjective | internal/controllers/reference/indexer.go:33-52 | object keys are injective |
| ReferenceIndexer.ReferenceKeyInjective | internal/controllers/reference/indexer.go:77-94 | record keys are injective |
| ReferenceIndexer.AddKeepsInverse | internal/controllers/reference/indexer.go:97-140 | an index stays the exact inverse of the records when one is set |
| ReferenceIndexer.RemoveKeepsInverse | internal/controllers/reference/indexer.go:142-157 | and when one is deleted |
| ReferenceIndexer.CacheIndexers.SetObjectReference | internal/controllers/reference/indexer.go:125-140 | records and both indices stand for the old pairs and the new one |
| ReferenceIndexer.CacheIndexers.DeleteObjectReference | internal/controllers/reference/indexer.go:142-157 | for the old pairs without this one |
| ReferenceIndexer.CacheIndexers.ObjectReferred | internal/controllers/reference/indexer.go:160-172 | true if and only if some pair refers to the object |
| ReferenceIndexer.CacheIndexers.ListReferredObjects | internal/controllers/reference/indexer.go:258-268 | each referent of the referrer, once |
| SecretCollector.EvictedOnlyUnreferred | internal/controllers/reference/reference.go:23-153 | every step: a secret that leaves the cache has no record left, failed reads or not |
| SecretCollector.UnreferredCachedExactly | internal/controllers/reference/reference.go:23-153 | over every run, whatever reads fail: a secret is cached without a record if and only if an update dropped its last record while it carried the CA label or could not be read, and it has had no record since |
| SecretCollector.NothingLeaks | internal/controllers/reference/reference.go:23-153 | over every run in which no read of the secret itself fails: a cached secret has a record, or carried the CA label when an update dropped its last record and has had none since |
| SecretCollector.UpdateOutcome | internal/controllers/reference/reference.go:23-115 | after a successful update that could read the secrets it drops, the referrer's records are the requested ones, others are unchanged, requested secrets are cached as read, dropped ones are gone if and only if unreferenced and not CA-labelled |
| SecretCollector.RejectedOutcome | internal/controllers/reference/reference.go:23-60 | a failed update loses nothing, keeps the record of the secret it stopped at, and has cached every other secret it made a record for |
| SecretCollector.DeletionOutcome | internal/controllers/reference/reference.go:121-153 | exactly the referrer's records go, and of its secrets those nothing refers to any more |
| SecretCollector.UpdateKeepsExactly | internal/controllers/reference/reference.go:65-115 | once a secret has no record, an update has kept it cached if and only if it was cached and, if the update dropped the last record, it is a CA or could not be read |
| SecretCollector.DroppedSecretFate | internal/controllers/reference/reference.go:65-115 | a dropped secret nobody else refers to: its record stays only because another read failed first, and then it stays cached; else it stays if and only if it is a CA or its read failed |
| SecretCollector.FailedReadLeaks | internal/controllers/reference/reference.go:105-107 | a run after which an ordinary secret is cached without any record |
| SecretCollector.Collector.UpdateReferencesToSecret | internal/controllers/reference/reference.go:23-60 | the loops take one update step, rejected, stopped or complete |
| SecretCollector.Collector.RemoveOutdatedReferencesToSecret | internal/controllers/reference/reference.go:65-115 | all outdated records go, or a failed read ends the loop silently |
| SecretCollector.Collector.DeleteReferencesByReferrer | internal/controllers/reference/reference.go:121-153 | all records of the referrer go, and the secrets left unreferred |
| NodeReconciliation.UpdateNodes | internal/konnect/node_agent.go:406-428 | whatever calls fail, other node types are untouched and the newest node of the controller and of every live gateway stays, and a node made for a host without one has the ID given for it; without failures one controller node and one proxy node per live hostname, each with its version and a last ping read from the clock during the call; from there only updates; if it fails, proxy nodes are untouched |
| NodeReconciliation.UpdateKICNode | internal/konnect/node_agent.go:229-318 | the same for the controller's node; only controller nodes change; version, last ping and ID as wanted |
| NodeReconciliation.UpdateGatewayNodes | internal/konnect/node_agent.go:321-403 | the same for proxy nodes; only proxy nodes change; versions, last pings and IDs as wanted |
| NodeReconciliation.RefreshHost | internal/konnect/node_agent.go:291-317 | the newest node becomes the wanted one, the others go only after that worked, else nothing changes |
| NodeReconciliation.DeleteForeign | internal/konnect/node_agent.go:230-248 | controller nodes of other hosts are deleted, failures skipped |
| NodeReconciliation.GroupByHostname | internal/konnect/node_agent.go:330-335 | the proxy nodes by hostname |
| NodeReconciliation.UpdateLiveGateways | internal/konnect/node_agent.go:337-386 | each live host is settled, with its version and a fresh last ping, without disturbing those before it |
| NodeReconciliation.DeleteDeadHosts | internal/konnect/node_agent.go:388-400 | nodes of hosts without gateway go, no others |
| NodeReconciliation.SortByLastPing | internal/konnect/node_agent.go:176-180 | a permutation, newest first |
| NodeReconciliation.OtherHostsKeep | internal/konnect/node_agent.go:337-400 | what happens to some hosts does not disturb the others |
| KonnectBackoff.StateIsHistory | internal/adminapi/backoff_strategy_konnect.go:85-147 | attempt counter, next attempt and held-back hash are functions of the history of events |
| KonnectBackoff.KthFailureWaits | internal/adminapi/backoff_strategy_konnect.go:106-147 | the k-th exponential failure since the last success waits min(3s·2^(k-1), 15min) |
| KonnectBackoff.RetryAfterDoesNotAdvance | internal/adminapi/backoff_strategy_konnect.go:119-131 | a 429 (section 4 of RFC 6585) with Retry-After (section 10.2.3 of RFC 9110) waits just that, leaves k, and releases any hash |
| KonnectBackoff.BlockedExactly | internal/adminapi/backoff_strategy_konnect.go:73-79 | a hash is held back if and only if it is that of the latest client error since the last success and 429 |
| KonnectBackoff.WaitBounds | internal/adminapi/backoff_strategy_konnect.go:19-23 | waits start at 3s, never shrink, and reach 15min with the tenth failure, not before |
| KonnectBackoff.NothingHeldBackAfterSuccess | internal/adminapi/backoff_strategy_konnect.go:110-117 | after a success, or before any failure, any push is allowed at once |
| KonnectBackoff.Kind | internal/adminapi/backoff_strategy_konnect.go:89-107 | which errors make a failure a throttle, a client error or neither; the first 429 decides |
| KonnectBackoff.KindByCodes | internal/adminapi/backoff_strategy_konnect.go:89-107 | by status codes: any 429 is a throttle, the first deciding the wait, else 400 to 499 a client error |
| KonnectBackoff.KonnectBackoffStrategy.CanUpdate | internal/adminapi/backoff_strategy_konnect.go:64-83 | allowed if and only if the time has come and the hash is not held back; the reasons given are exactly those that apply |
| KonnectBackoff.KonnectBackoffStrategy.RegisterUpdateFailure | internal/adminapi/backoff_strategy_konnect.go:85-108 | one step of the history |
| KonnectBackoff.KonnectBackoffStrategy.RegisterUpdateSuccess | internal/adminapi/backoff_strategy_konnect.go:110-117 | back to the fresh state |
| KonnectBackoff.KonnectBackoffStrategy.HandleTooManyRequests | internal/adminapi/backoff_strategy_konnect.go:119-131 | Retry-After or the exponential wait; the hash is dropped |
| Hostnames.IntersectionIsReal | internal/util/hostname.go:13-19 | for all masks: a reported intersection has a concrete hostname covered by both sides |
| Hostnames.IntersectsExactly | internal/util/hostname.go:13-66 | for hostnames the Gateway API admits, reported if and only if they overlap and the label after a "*" does not occur too early in the other side |
| Hostnames.MatchIsCovered | internal/util/hostname.go:29-66 | for all masks: every match is covered by the mask with each "*" standing for one or more labels |
| Hostnames.LeadingWildcardMatch | internal/util/hostname.go:29-66 | a leading wildcard matches if and only if the first occurrence of the suffix's first label after label 0 begins the suffix at the end; "*" alone matches single labels only |
| Hostnames.ExactHostname | internal/util/hostname.go:29-66 | a mask without wildcard matches itself only |
| Hostnames.RepeatedLabelMissed | internal/util/hostname.go:36-45 | "*.example.com" covers "a.example.example.com" but does not match it |
| Hostnames.SplitJoin | internal/util/hostname.go:26-27 | splitting undoes joining |
| Hostnames.HostnamesMatch | internal/util/hostname.go:23-66 | the nested loops decide the recursive match |
| Hostnames.HostnamesIntersect | internal/util/hostname.go:13-19 | a match either way |
| UpstreamPolicyConflicts.GetConflictedServices | internal/controllers/configuration/kongupstreampolicy_utils.go:214-246 | through the index, exactly the services some rule of any route holds together with a supported backend outside the policy, so all policy services of such a rule; fails if and only if some listing does; empty without HTTPRoute |
| UpstreamPolicyConflicts.ConflictsMeaning | internal/controllers/configuration/kongupstreampolicy_utils.go:214-291 | in terms of Services: some rule refers to it and to a Service that does not use the policy |
| UpstreamPolicyConflicts.SupportedMeans | internal/controllers/configuration/kongupstreampolicy_utils.go:389-413 | a backend is a Service by its group, kind, namespace and name, absent ones taking their defaults |
| UpstreamPolicyConflicts.AllOrNothing | internal/controllers/configuration/kongupstreampolicy_utils.go:248-267 | nothing conflicts if and only if every rule's supported backends are all inside the policy or all outside |
| UpstreamPolicyConflicts.IndexFindsAll | internal/controllers/configuration/kongupstreampolicy_utils.go:227-245 | routes the index leaves out bring no conflict |
| UpstreamPolicyConflicts.IndexKeys | internal/controllers/configuration/kongupstreampolicy_controller.go:175-192 | a route is filed under exactly the keys of its supported backends |
| UpstreamPolicyConflicts.BackendRefsUsedWith | internal/controllers/configuration/kongupstreampolicy_utils.go:269-291 | leaving out one matching backend per rule hides no stray backend |
| UpstreamPolicyConflicts.RouteConflicts | internal/controllers/configuration/kongupstreampolicy_utils.go:251-267 | true if and only if some rule holds the service and a stray backend |
| UpstreamPolicyConflicts.ServiceKeyInjective | internal/controllers/configuration/kongupstreampolicy_utils.go:389-402 | keys identify Services, and none is empty |
| ReferenceGrants.GetPermittedForReferenceGrantFrom | internal/gatewayapi/references.go:129-147 | the map holds, per namespace, exactly the targets granted to the source; its keys are the namespaces with a grant for it |
| ReferenceGrants.IsRefAllowed | internal/gatewayapi/references.go:99-124 | over that map, allowed if and only if local or some grant in the target namespace matches source and target |
| ReferenceGrants.IsRefAllowedByGrant | internal/gatewayapi/references.go:41-94 | the answer for each kind of reference without the map, including the dereference of a missing group or kind |
| ReferenceGrants.BackendAnswer | internal/gatewayapi/references.go:45-64 | a backend reference is permitted if and only if local, said or unsaid, or granted |
| ReferenceGrants.SecretAnswer | internal/gatewayapi/references.go:66-77 | a Secret reference with a namespace needs a grant, its own namespace included |
| ReferenceGrants.PluginAnswer | internal/gatewayapi/references.go:79-90 | a plugin reference with a namespace needs a grant for KongPlugins |
| ReferenceGrants.GetReferenceGrantConditionReason | internal/controllers/gateway/gateway_utils.go:527-564 | resolved if and only if local or some grant admits Gateways of the namespace to the Secret |
| ReferenceGrants.ListenerCheckMeans | internal/controllers/gateway/gateway_utils.go:527-564 | the listener's check is the direct definition under either spelling of the core group |
| ReferenceGrants.SecretResolvedMeans | internal/controllers/gateway/gateway_utils.go:527-564 | with group and kind of Gateways and Secrets spelled out |
| ReferenceGrants.AdmittedIsResolved | internal/gatewayapi/references.go:66-77 | a Secret reference the first check admits is reported resolved by the second |
| ReferenceGrants.ResolvedNotAdmitted | internal/gatewayapi/references.go:66-77 | the converse fails exactly for the own namespace spelled out without grant and for the other spelling of the core group |
| ReferenceGrants.ChecksDisagree | internal/gatewayapi/references.go:66-77 | an input for each of the two |

## Left out

- The translator, deck generation, `sendconfig` and the config fetcher: functions or answers of the environment here.
- Which objects each kind depends on (the dependency resolvers): a parameter of the fallback model.
- Errors of graph building and of filling in type metadata in fallback and snapshot code: cannot occur for the modelled objects.
- The metadata of a generated fallback cache (causes of exclusion and backfilling): diagnostics only.
- Konnect configuration push inside `Update`, configuration status, metrics, events and diagnostics.
- Goroutines, channels, mutexes, contexts, tickers and shutdown.
- Certificate checks, supported route kinds and attached-route counts of a listener; the order of conditions and statuses and all timestamps.
- The status text and the ingress controller state of a Konnect node: a node is its type, hostname, last ping and version.
- `buildPolicyStatus`: it sorts by creation timestamps that are never filled in (internal/controllers/configuration/kongupstreampolicy_utils.go:180-188).
- The KongLicense controller, admission validators, generated per-kind reconcilers, the license agent and the synchronizer.
- The wording of the reasons a Konnect push is refused; only which reasons apply.
- NodeReconciliation.SortByLastPing: a function with one admissible order among equal pings, where Go's sort leaves that order open; no result depends on it.
