# Verified model of Pixiu's configuration machinery

Apache Dubbo-go-Pixiu keeps its gateway configuration moving while requests run:
an Admin service publishes routes through etcd transactions, xDS replaces
listeners and clusters, health verdicts change endpoint snapshots, and watch
events update an in-memory API table. This project models those mechanisms in
Dafny and proves what they promise for every input, every run and every
interleaving.

`dafny verify dfyconfig.toml` checks the whole project.

## How the model is laid out

- **Route publication** (`Etcd`, `RouteStore`, `RouteProtocol`, `RouteInvariants`,
  `RouteTheorems`, `RouteEffects`, `RouteConflicts`, `RouteVerbs`, `RoutePaths`,
  `RouteNodes`, `RouteChecks`, `DraftMethods`, `FieldDiff`, `FieldCollisions`). The store is an
  etcd store with per-key revisions. Clients read key by key, at different
  instants, and then commit one transaction guarded by revision comparisons.
  Any number of clients interleave. What the schema package and the string
  helpers compute, and the order of keys, is a parameter (`Schema`), and every
  theorem holds for every choice that meets `Sound`: normalising keeps the name,
  a compiled Method has its Resource's path, which starts with a slash and is not
  all space, and the key order is total.
- **Listeners** (`FilterChain`, `RequestGate`, `ChainRefinement`, `GateAccounting`,
  `ListenerTransaction`). The reference count of a filter chain and the request
  gate are state machines over single steps of any number of threads, and the
  first refines the chain that the second uses. The xDS transaction is a class
  whose methods loop as the code does; calls that can fail are answered by an
  `Environment`.
- **Endpoints and clusters** (`Decimals`, `EndpointIdentity`, `EndpointSnapshot`,
  `HashCache`, `ClusterRuntime`, `ClusterStore`, `EndpointEvents`,
  `ClusterManager`). Snapshots are values, as they are immutable once published.
  The runtime is a state machine over loads and compare-and-swaps. The manager
  is a class.
- **Watch events** (`ApiConfigView`, `ApiConfigLog`). The view is a class over
  lists; the log module is about whole sequences of events.
- **Route snapshots** (`RouteIdentity`, `RouteKeys`, `RouteTrie`, `RouteSnapshot`,
  `RouteMatch`). Trie nodes are values, since no node is shared. Building and
  searching meet in `RouteMatch`.

Several promises turned out to need a condition. Each of these has a statement
of exactly when it holds and an input that shows what happens otherwise:

- Routes never conflict, as far as legacy publishes go: `PublishesKeepRoutesApartIff`,
  and the run in `UnstableVerbBreaksRoutes`.
- And as far as binding publishes go: `BindingKeepsRoutesApartIff`, and the runs in
  `UnstablePathBreaksRoutes` and `MovedMethodBreaksRoutes`.
- Draft Method paths agree with their Resource: `SamePathUpdateKeepsIff`, and the
  run in `StaleUpdateBreaksAgreement`.
- The field diff is empty only for equal objects: `KeyCollidesIff`, and the
  objects of `UnplainKeyCollides`.
- The followed API table is what the store means: `FoldIsMeaningIff`,
  `LoadedAndFollowedIff` and `RebuildIsMeaningIff`, and the log in
  `RecreatedResourceLosesMethods`.
- One route identity is one trie node: `IdentityIsWalkAndRest`, and the keys of
  `ContinuedMatchAllSharesNode`.
- A request reaches a route that applies to it: `RoutedIff` and `RoutesAreFound`,
  and the routes of `BrokenKeyHidesRoute`.
- A prefix route's key ends in a match-all segment: `PrefixKeyEndsInAll`.
- The cluster store stays consistent and consumers are told of it: the contracts
  of `AddCluster`, `SetEndpoint`, `CompareAndSetStore` and `UpsertXdsCluster`.

`CommitIsAtomic` and `ReplayWithoutIdIsNoOpIff` are of the same kind.

## Model

| member | source | states |
|---|---|---|
| Etcd.UnchangedMeansSameEntry | admin/logic/route_binding.go:704-730 | A modification-revision comparison that succeeds proves the whole entry is the one that was read, for every store reached since. |
| RouteProtocol.NextIsAhead | admin/logic/route_binding.go:574-648 | Under every action the store only moves forward, and the published and runtime keys only change together with the generation marker. |
| RouteProtocol.SeenIsCurrent | admin/logic/route_binding.go:1508-1522 | If the marker comparison of a commit succeeds, the published and runtime keys of every read taken since the marker read are still what they were. |
| RouteProtocol.ReadsAreCurrent | admin/logic/route_binding.go:661-679 | What a committing operation read, over several reads, is what it would read at the instant of its commit, except that it may have missed a draft created since. |
| RouteProtocol.CommitIsAtomic | admin/logic/route_binding.go:574-659 | A committed operation acts as one atomic step at its commit, if and only if no draft was created after it found none (or no draft is involved). |
| RouteTheorems.CommitKeepsTable | admin/logic/route_binding.go:509-659 | Every commit of the four operations, however its reads were interleaved, keeps the bindings served, their IDs distinct and the history telling. |
| RouteTheorems.RunKeepsInvariant | admin/logic/route_binding.go:574-648 | That invariant holds after every run of any number of clients. |
| RouteConflicts.RoutesNeverConflict | admin/logic/route_binding.go:793-924 | In every run of steady commits from a conflict-free store no two runtime Methods, whether they have a path of their own or their Resource's, are served under the same conflict key. |
| RouteConflicts.CommitKeepsClear | admin/logic/route_binding.go:574-659 | However its reads were interleaved, a steady commit of any of the four operations keeps the served routes apart. |
| RouteConflicts.PublishKeepsRoutes | admin/logic/route_binding.go:841-924 | A binding publish that passes the check keeps the served routes apart if the check looks its route up by the key it will be stored with and no Method that lives on its Resource's path is moved along. |
| RouteConflicts.LegacyPublishKeepsRoutes | admin/logic/legacy_resource.go:870-923 | A legacy publish that passes the scan keeps the served routes apart if trimming the verb leaves the key of every route it changes alone. |
| RouteTheorems.PublishedBindingsAreServed | admin/logic/route_binding.go:732-763 | In every reachable store each published binding's Resource and Method exist and equal the compilation of its record, and no other binding has its Resource ID. |
| RouteTheorems.NewestHistoryIsPublished | admin/logic/route_binding.go:616-628 | The newest history entry of a name is its published record, and a tombstone exactly when the name is unpublished. |
| RouteTheorems.GenerationCountsCommits | admin/logic/route_binding.go:1227-1240 | Each committed publish or delete of either API moves the generation by exactly one, and nothing else moves it. |
| RouteTheorems.HistoryIsAppendOnly | admin/logic/route_binding.go:1656-1662 | A history entry, once written, is never rewritten or removed in any run. |
| RouteTheorems.LegacySparesOwnedKeys | admin/logic/legacy_resource.go:941-1013 | No committed legacy publish or delete changes a published binding, its Resource or its Method. |
| RouteTheorems.AcceptedStagingKeepsClear | admin/logic/legacy_resource.go:991-1013 | A legacy publish that passes the ownership check, with or without Method paths, writes no key that a published binding owns. |
| RouteConflicts.AcceptedCandidatesStayApart | admin/logic/legacy_resource.go:1137-1156 | Candidates that pass the scan in key order, against the existing routes and the candidates before them, are apart from everything served afterwards if those that change are stable. |
| RouteInvariants.PublishKeepsInvariant | admin/logic/route_binding.go:732-763 | Replacing a binding's runtime keys, record, history entry and marker keeps matching runtime, distinct IDs and the history rules. |
| RouteInvariants.TombstoneKeepsInvariant | admin/logic/route_binding.go:509-568 | Deleting keys that include the record of a binding and no runtime key but below its Resource, and writing a tombstone, keeps the same invariant. What the two operations that do so delete is in `DeleteRemovesPublication` and `PublishWithoutDraftRemovesPublication`. |
| RouteInvariants.LegacyPublishKeepsInvariant | admin/logic/legacy_resource.go:870-923 | A legacy publish that touches no owned key keeps the same invariant. |
| RouteInvariants.RemovalKeepsInvariant | admin/logic/legacy_resource.go:941-989 | A legacy delete outside the owned keys keeps the same invariant. |
| RouteEffects.DeleteRemovesPublication | admin/logic/route_binding.go:509-568 | After a committed delete, however interleaved, the published record, its Resource and every Method below it are gone, and the draft that was found; a draft created after none was found stays; a tombstone and the next generation are there; every other key is as it was. |
| RouteEffects.PublishWithoutDraftRemovesPublication | admin/logic/route_binding.go:732-771 | A committed publish that found no draft removes the publication in the same way, only where there is one, and leaves drafts alone. |
| RouteEffects.PublishInstallsDraft | admin/logic/route_binding.go:732-763 | A committed publish that found a draft stores the normalised record of the draft as it is in the store at that instant, the Resource and Method it compiles to, the history entry and the generation. If the draft moved to another Resource everything of the old one is gone, if only to another Method the old Method; every other key is as it was. |
| RouteEffects.ExpectedRevisionIsStored | admin/logic/route_binding.go:598-600 | A publish or delete sent with an expected revision commits only while the stored draft has exactly that revision, and never with a negative one. |
| RouteEffects.LegacyPublishStoresStaged | admin/logic/legacy_resource.go:870-923 | A committed legacy publish stores every staged and every accompanying value and the next generation, and changes no other key. |
| RouteEffects.LegacyPublishIsChecked | admin/logic/legacy_resource.go:870-923 | It commits only with something staged and only while the comparisons of its caller hold. |
| RouteEffects.LegacyDeleteRemovesTarget | admin/logic/legacy_resource.go:968-977 | A committed legacy delete of a Resource removes it with every Method below it, that of a Method the Method alone; every other key but the marker is as it was. |
| RouteEffects.DeleteGoesThroughIff | admin/logic/route_binding.go:509-568 | Undisturbed, a delete commits if and only if the name has a draft or a publication, a draft that is there can be read, the expected revision is that of the draft if one is given, and a generation is left. |
| RouteEffects.WithdrawalGoesThroughIff | admin/logic/route_binding.go:574-648 | Undisturbed, a publish without a draft commits if and only if the name is published, no revision is expected and a generation is left. |
| RouteEffects.LegacyDeleteGoesThroughIff | admin/logic/legacy_resource.go:941-966 | Undisturbed, a legacy delete commits if and only if no published binding is served from what it removes and a generation is left. |
| RouteEffects.GenerationStaysInRange | admin/logic/route_binding.go:1227-1240 | A generation that starts within 64 bits stays there in every run: no commit overflows it. |
| RouteChecks.CompileSnapshot | admin/logic/route_binding.go:1344-1378 | The loop over route, name and ID tables accepts a list exactly when every entry compiles and no two entries have one route key, or one Resource ID under different names, and returns each compilation. |
| RouteChecks.TablesDecide | admin/logic/route_binding.go:1344-1378 | Looking a new entry up in the three tables decides whether it clashes with any earlier one. |
| RouteChecks.CompilePublishCandidate | admin/logic/route_binding.go:681-702 | The candidate exists exactly when the published bindings, with this one replaced by its draft, compile together, and it is the draft's compilation. |
| RouteChecks.SnapshotImpliesConsistent | admin/logic/route_binding.go:681-702 | The order-free condition of the protocol implies that the listed snapshot compiles. |
| RouteChecks.ConsistentImpliesSnapshot | admin/logic/route_binding.go:681-702 | And the other way round. |
| RouteChecks.FindLegacyRuntimeRouteConflict | admin/logic/legacy_resource.go:1137-1156 | The nested scan reports a conflict exactly when some candidate clashes with an existing route or with an earlier candidate under another key. |
| RouteChecks.ScanDecidesConflict | admin/logic/legacy_resource.go:1137-1156 | The scan over the candidates in key order decides exactly the condition under which the protocol's transaction is made, in whatever order the existing routes are listed. |
| RouteChecks.CheckLegacyConflict | admin/logic/legacy_resource.go:1096-1156 | The loop refuses exactly the stagings that the protocol's transaction refuses. |
| RouteVerbs.PublishesKeepRoutesApartIff | admin/logic/legacy_resource.go:870-923 | Publishing some legacy writes keeps every store in order conflict-free if and only if the scan refuses them everywhere, or the keys they are stored with are distinct and each of them is looked up by the check for one of them. |
| RouteVerbs.UnstableVerbBreaksRoutes | admin/logic/route_binding.go:907-909 | From every state of the invariant that serves a Method whose conflict key changes when trimmed, the run of one client that publishes a copy under an unused Resource ends with two Methods of one route. |
| RouteVerbs.StableStagingIsExact | admin/logic/route_binding.go:907-909 | For verbs that the key shows, the condition is that trimming changes no staged route's key or that the scan refuses the writes. |
| RouteVerbs.UncoveredStagingBreaks | admin/logic/legacy_resource.go:1137-1156 | Every staging that passes the scan with a stored key nobody looks up breaks a store that holds one Method and nothing else. |
| RoutePaths.BindingKeepsRoutesApartIff | admin/logic/route_binding.go:890-909 | Publishing a draft keeps every store in order conflict-free if and only if its compiled route is looked up by the key it will be stored with, which an untrimmed path can change. |
| RoutePaths.UnstablePathBreaksRoutes | admin/logic/route_binding.go:862-909 | For every binding whose path is not stable, the run that publishes it beside an equal legacy Method ends with two Methods of one route. |
| RoutePaths.MovedMethodBreaksRoutes | admin/logic/route_binding.go:878-885 | For every binding, publishing it under the Resource ID of a Method without a path moves that Method to the binding's path unchecked, and the run ends with two Methods of one route. |
| RouteNodes.ConflictIsSameEdges | admin/logic/route_binding.go:911-924 | Two routes of one verb have one conflict key exactly when the router's trie keys for them have the same edges throughout. |
| RouteNodes.RoutesHaveTheirOwnNodes | pkg/router/route.go:122-142 | In every run of steady commits two runtime Methods of one verb are on different nodes of the router's trie, unless their keys differ only behind a match-all segment. |
| RouteNodes.ContinuedRoutesShareNode | pkg/common/router/trie/trie.go:175-182 | Routes that continue a match-all segment differently do share a node and have different conflict keys. |
| RouteNodes.LookedUpVerbIsTrimmed | admin/logic/route_binding.go:911-924 | With that key, only a stable route is stored with a key that the check looks up, for verbs without a slash. |
| DraftMethods.UpdatePathCoversMethods | admin/logic/legacy_resource.go:412-538 | The draft Methods that a committing path update read are exactly those that exist at its commit. |
| DraftMethods.UpdatePathMovesMethods | admin/logic/legacy_resource.go:479-503 | After a committed path update the Resource has the new path and body, every Method of it that was there just before the commit has the new path and the body it had, and no other key has changed. |
| DraftMethods.SaveMethodStores | admin/logic/legacy_resource.go:544-634 | A committed save stores the Method with the given body under the path its Resource has at that instant; a creation found no such Method, an update found one; nothing else changes but the revision key, which does. |
| DraftMethods.DeleteMethodRemoves | admin/logic/legacy_resource.go:636-676 | A committed deletion removes the Method that was read, under the Resource that was read, and nothing else changes but the revision key, which does. |
| DraftMethods.CreateResourceStores | admin/logic/legacy_resource.go:228-289 | A committed creation stores the Resource and its Methods, all with its path, where none of them was, and nothing else changes. |
| DraftMethods.DeleteResourceRemoves | admin/logic/legacy_resource.go:291-320 | A Resource deletion removes the Resource and all its Methods and nothing else. |
| DraftMethods.SamePathUpdateStores | admin/logic/legacy_resource.go:170-193 | The update without a revision check stores what it was given, whatever is there, provided the path it had read is the same, and changes nothing else. |
| DraftMethods.SamePathUpdateKeepsIff | admin/logic/legacy_resource.go:170-193 | The Resource update without a revision check keeps Method paths equal to the Resource's if and only if it writes the path the store has at its commit (or there is no such Method). |
| DraftMethods.DraftPathsAlwaysAgree | admin/logic/legacy_resource.go:599-676 | In every interleaving of Method saves and deletes, Resource deletes, creations and path updates, every draft Method's resource path is its Resource's path. |
| DraftMethods.StaleUpdateBreaksAgreement | admin/logic/legacy_resource.go:170-193 | From every store with an agreeing Method, an unguarded update based on an old path leaves that Method with another path than its Resource. |
| FieldDiff.Flatten | admin/logic/route_binding.go:1283-1329 | Flattening gives every path of the tree the last leaf found there, with keys in ascending order, and changes no other path. |
| FieldDiff.FlatteningIsInjective | admin/logic/route_binding.go:1283-1329 | Two trees whose keys contain no dot and do not end with an index, and that flatten alike at a non-empty path, are equal. |
| FieldDiff.LeafIsUnique | admin/logic/route_binding.go:1283-1329 | No path of such a tree holds two leaves. |
| FieldDiff.FlatteningDecidesEquality | admin/logic/route_binding.go:1242-1329 | Two objects, present or missing, flatten to the same map exactly when they are the same. |
| FieldDiff.DiffValues | admin/logic/route_binding.go:1255-1281 | The change list holds exactly the paths whose values differ, once each, in ascending order, with both values, and is empty exactly when the maps are equal. |
| FieldDiff.FirstDifferenceDecides | admin/logic/route_binding.go:1255-1281 | The order of the listed paths is that of the first character in which they differ, and a path comes before its continuations. |
| FieldDiff.DiffObjects | admin/logic/route_binding.go:1242-1281 | The change list holds, in order, exactly the paths at which the last leaves of the two objects differ, with both values. Where no path has two leaves it is empty exactly when the objects flatten alike; for specs with plain keys, exactly when they are equal, missing ones included. |
| FieldDiff.BetweenKeys | admin/logic/route_binding.go:1301-1321 | What a longer key has beyond a shorter one that reads the same path contains a dot or ends with an index. |
| FieldCollisions.UnplainKeyCollides | admin/logic/route_binding.go:1301-1321 | For every key that contains a dot or ends with an index there are two different objects whose other keys are all plain, which flatten alike and whose diff is therefore empty. |
| FieldCollisions.KeyCollidesIff | admin/logic/route_binding.go:1283-1329 | A key can make two different objects flatten alike, all other keys being plain, if and only if it contains a dot or ends with an index. |
| FieldCollisions.OpenBracketIsPlain | admin/logic/route_binding.go:1313-1321 | An index inside a key that does not end the key collides with nothing. |
| FilterChain.StepKeepsInvariant | pkg/listener/listener.go:263-314 | Every load, swap, add and close of any thread keeps the count, the once-only close and the rule that a close is done or pending exactly when the chain is retired and unheld. |
| FilterChain.ChainIsSafe | pkg/listener/listener.go:263-314 | In every run the count equals the number of holders and never reaches the retired bit, the chain is closed at most once and never while held, and a retired, unheld chain without a pending close is closed. |
| FilterChain.NoHolderAfterRetirement | pkg/listener/listener.go:263-314 | After retirement no thread becomes a holder, and a closed chain is never held again. |
| ChainRefinement.StepRefines | pkg/listener/listener.go:263-314 | Each atomic step of the compare-and-swap loops is one of the request gate's own steps on that chain, an acquire or its refusal, a release, a retirement or a close, or none, and gives the chain the loop's new value. |
| ChainRefinement.RunRefines | pkg/listener/listener.go:263-314 | Every step of a run of the loops is such a step of the gate, and the run starts from an open and unheld chain. |
| RequestGate.AdmissionsFollowConfigurations | pkg/listener/listener.go:156-171 | In every run each request was admitted on the chain of one published configuration, and the configurations only move forward in admission order: pre-transaction chains, then only post-transaction chains, across all listeners. |
| RequestGate.DroppedListenersAdmitNothing | pkg/server/listener_manager.go:303-410 | A listener staged by a rejected transaction or dropped by a committed one admits nothing afterwards. |
| RequestGate.RequestsRunOnOpenChains | pkg/listener/listener.go:156-240 | A running request's chain is held and not closed, and an active listener's chain is never retired. |
| RequestGate.TransactionIsAllOrNothing | pkg/server/listener_manager.go:242-410 | In every run a transaction, from its first step to its last, leaves the configurations as they were or appends exactly the one it describes; the active listeners are then the configured ones on their chains but for failed restarts among its hand-offs; no request let in meanwhile saw another configuration than the old one. |
| RequestGate.StepKeepsInvariant | pkg/server/listener_manager.go:303-410 | Every step of requests, managers and chains keeps the gate exclusive, live listeners equal to the published configuration, and installed chains open and unshared. |
| GateAccounting.NothingLeaks | pkg/server/listener_manager.go:242-427 | In every run from a tidy start, whenever no transaction is in progress and everything given up has been retired and closed, the only chains that are not retired are those of the configured listeners, and only configured listeners have a chain: rejected, replaced and dropped ones are all given up. |
| GateAccounting.StepLeaksNothing | pkg/server/listener_manager.go:242-427 | Every step keeps that each chain that is not retired is installed, prepared, being replaced or handed over for retirement, and each listener is configured, staged, waiting to be closed, or closed. |
| GateAccounting.SocketsAreHandedOver | pkg/server/listener_manager.go:369-383 | In every run, while a listener created by a transaction is active, no listener that had to free a socket for that transaction is. |
| ListenerTransaction.ListenerManager.Prepare | pkg/server/listener_manager.go:274-302 | Preparation succeeds exactly when the list has no missing entry, no duplicate and no conflict with a non-xDS listener and everything in it can be built. |
| ListenerTransaction.ListenerManager.FindHandoffs | pkg/server/listener_manager.go:303-334 | Finds every hand-off of a dropped listener's socket, and fails exactly when one side cannot stop accepting or a socket has two takers. |
| ListenerTransaction.ListenerManager.HandOver | pkg/server/listener_manager.go:347-383 | Succeeds exactly when every old listener stops and every new one starts; on failure only stopped listeners whose restart fails stay inactive. |
| ListenerTransaction.ListenerManager.RollBack | pkg/server/listener_manager.go:348-367 | Each stopped listener is active again exactly when its restart succeeds; no other changes. |
| ListenerTransaction.ListenerManager.Discard | pkg/server/listener_manager.go:256-271 | Each prepared chain and each staged service is closed exactly once, and nothing else. |
| ListenerTransaction.ListenerManager.Publish | pkg/server/listener_manager.go:385-410 | Drops the unwanted xDS listeners, leaves other entries alone, and hands over exactly the chains and services to be closed. Every listed configuration then has a service with exactly that configuration and the chain built for it; a service that was there keeps its ID and activity, a new one is active under its own new ID. |
| ListenerTransaction.ListenerManager.ReplaceXdsListeners | pkg/server/listener_manager.go:242-427 | All or nothing: succeeds exactly when nothing fails; on error active map, ownership and chains are unchanged and everything prepared is closed exactly once; on success the active map is the old one without dropped xDS keys plus the list, each listed service with its configuration and the chain built for it, kept ones with their ID and activity, new ones created, started and active. |
| ListenerTransaction.SharedSocketIsHandedOver | pkg/server/listener_manager.go:429-441 | Where a new listener takes the address and fixed port of a dropped one and one speaks HTTP and the other HTTP2, a list goes through only if both can stop accepting, the old one stops and the new one starts. |
| ListenerTransaction.FreeSocketsOnlyStart | pkg/server/listener_manager.go:429-441 | Where there is no such pair, a list that can be built goes through exactly when every new listener starts. |
| ListenerTransaction.CommitIsInUse | pkg/server/listener_manager.go:385-427 | After a commit every active service and chain is open, its own, and none of the closed ones. |
| ListenerTransaction.RejectionIsInUse | pkg/server/listener_manager.go:256-271 | After a rejection no active service or chain was closed. |
| EndpointIdentity.MaterialIsInjective | pkg/model/cluster.go:208-227 | Equal ID material implies equal cluster name, address, provider and key, for all strings. |
| EndpointIdentity.GeneratedIdsAgreeIff | pkg/model/cluster.go:194-227 | For a digest without collisions two generated IDs are equal if and only if cluster, address, provider and key are; name, metadata and health never matter. |
| EndpointIdentity.FieldIsUnique | pkg/model/cluster.go:225-227 | A tagged, length-prefixed field can be read back whatever its value and whatever follows. |
| EndpointIdentity.StableUniqueId | pkg/model/cluster.go:245-262 | The suffix search ends within one more candidate than there are taken IDs and returns the first candidate that is free. |
| EndpointIdentity.ResolvedInTurn | pkg/model/cluster.go:245-262 | The first endpoint with a base keeps it, the next ones get -2, -3. |
| EndpointIdentity.TriedAreTaken | pkg/model/cluster.go:256-261 | If the first n candidates are all taken, at least n IDs are taken. |
| EndpointIdentity.Assemble | pkg/server/cluster_manager.go:786-818 | Each endpoint in turn gets the first free candidate of its base ID and a default name; empty slots stay empty. |
| EndpointIdentity.DefaultNamesDiffer | pkg/server/cluster_manager.go:810-816 | A given name stays; names made up for two places always differ, whatever the providers, and count from 1. |
| EndpointIdentity.AssemblyIsDistinct | pkg/server/cluster_manager.go:786-818 | Assembled IDs are distinct and not empty. |
| EndpointIdentity.AssemblyIsIdempotent | pkg/server/cluster_manager.go:786-818 | Assembling an assembled list changes nothing. |
| EndpointIdentity.AssemblyIsUnique | pkg/server/cluster_manager.go:786-818 | Assembly is determined by its input. |
| EndpointIdentity.DistinctIdsAreKept | pkg/cluster/cluster.go:313-324 | IDs that are distinct and not empty resolve to themselves under any cluster name, so a rebuild moves none. |
| EndpointSnapshot.Build | pkg/cluster/cluster.go:300-391 | A built snapshot's indexes all agree with its endpoint list, whose IDs are resolved in order. Told by the lists alone: with health checks an endpoint that was at its address before keeps its own health, any other starts healthy exactly when every previous endpoint at its address was, or as configured if there was none; without, all start as configured. |
| EndpointSnapshot.RebuildStartsFrom | pkg/cluster/cluster.go:341-362 | The health that every rebuilt endpoint starts with, from the previous list and the configuration alone. |
| EndpointSnapshot.IndexIsUnique | pkg/cluster/cluster.go:364-391 | The endpoint list determines every index, so a snapshot whose indexes agree with its list is the rebuilt one. |
| EndpointSnapshot.Verdicts | pkg/cluster/cluster.go:604-611 | The per-address conjunction folded over the ID map in any order is the conjunction over all IDs of the address. |
| EndpointSnapshot.VerdictsIndexAddresses | pkg/cluster/cluster.go:381-391 | That conjunction is the address index of the updated list. |
| EndpointSnapshot.WithHealthForIds | pkg/cluster/cluster.go:571-629 | The incremental update returns the fully indexed snapshot of the list with the verdict written into the named endpoints only. |
| EndpointSnapshot.WithHealth | pkg/cluster/cluster.go:541-553 | Applies exactly when an endpoint has that ID and address, and updates that endpoint alone. |
| EndpointSnapshot.WithAddressHealth | pkg/cluster/cluster.go:555-569 | Applies exactly when some endpoint has the address, and updates every endpoint there and no other. |
| EndpointSnapshot.HealthUpdateIsRebuild | pkg/cluster/cluster.go:571-629 | What the incremental update derives is the snapshot that building the updated list from scratch gives, for every cluster name and digest. |
| EndpointSnapshot.RefreshKeepsUpdate | pkg/cluster/cluster.go:113-194 | After an update, building the same configured endpoints again with health checks on gives exactly the updated snapshot. |
| HashCache.HaveSameHosts | pkg/cluster/cluster.go:672-692 | The comparison loop decides whether two healthy lists have the same hosts and ports in order. |
| HashCache.ReuseIsRebuild | pkg/cluster/cluster.go:650-664 | When reuse is allowed the previous ring equals the one a rebuild would give, for ring builders that depend only on the compared fields. |
| HashCache.ReuseIff | pkg/cluster/cluster.go:650-692 | Reuse is allowed if and only if policy, the three ring parameters, and the hosts and ports in order are the same. |
| HashCache.RingCache.ReusingFrom | pkg/cluster/cluster.go:643-664 | The previous ring is taken over exactly when it exists and reuse is allowed. |
| HashCache.RingCache.HealthyRing | pkg/cluster/cluster.go:443-476 | Cached, reused or new, the ring returned is the one rebuilt from the healthy endpoints. |
| ClusterRuntime.RebuildInherits | pkg/cluster/cluster.go:341-362 | A rebuild with health checks keeps the health of every endpoint that keeps its ID and address. |
| ClusterRuntime.ApplyWrites | pkg/cluster/cluster.go:541-629 | A verdict changes the health of exactly the endpoints it names and no ID or address. |
| ClusterRuntime.StepKeepsInvariant | pkg/cluster/cluster.go:113-194 | Every load, swap, freeze and replacement keeps the current and the frozen snapshot carrying the last accepted verdicts. |
| ClusterRuntime.VerdictsAreNeverLost | pkg/cluster/cluster.go:113-194 | In every run every published snapshot carries the last verdict accepted before it on each endpoint that kept its ID and address, through racing refreshes, freezes and replacements, while health checks stay configured. |
| ClusterRuntime.NothingIsAcceptedWhileFrozen | pkg/cluster/cluster.go:128-194 | After a freeze no verdict is accepted until the runtime has been replaced. |
| ClusterRuntime.ReplaceKeeps | pkg/server/cluster_manager.go:821-843 | A replacement built from the frozen snapshot carries every verdict. |
| ClusterStore.ResolveSlot | pkg/server/cluster_manager.go:1152-1209 | The first slot with the ID, or with the hash when there is no ID, decides between no change, replacement and append. |
| ClusterStore.SetIn | pkg/server/cluster_manager.go:1006-1050 | Setting an endpoint leaves the list alone, replaces one slot, or appends with the first free ID, and nothing else moves. |
| ClusterStore.SetUnderIdUpdatesSlot | pkg/server/cluster_manager.go:1170-1184 | An endpoint set under the ID of a slot with another host, port, address, metadata or LLM configuration takes that slot over with its own content; with none different nothing changes; other slots and their order stay. |
| ClusterStore.ReplayWithIdIsNoOp | pkg/server/cluster_manager.go:1170-1184 | Replaying a set with an explicit ID changes nothing. |
| ClusterStore.ReplayWithoutIdIsNoOpIff | pkg/server/cluster_manager.go:1191-1209 | Replaying a set without an ID changes nothing if and only if no slot had that hash before or the first one that did has equal content. |
| ClusterStore.DeleteIn | pkg/server/cluster_manager.go:1339-1363 | Deleting removes exactly the endpoint with the ID and keeps order and content of the others. |
| ClusterStore.BuildRuntime | pkg/server/cluster_manager.go:829-843 | A runtime built for an assembled configuration serves exactly its endpoints under the same IDs, with its policy and hash parameters; with health checks on its endpoints inherit health as a rebuild does, otherwise they start as configured. |
| EndpointSnapshot.RebuildKeepsIds | pkg/cluster/cluster.go:313-324 | A snapshot rebuild of endpoints with distinct IDs resolves exactly those IDs. |
| ClusterStore.WithoutIsConsistent | pkg/server/cluster_manager.go:701-724 | Dropping clusters with their runtimes leaves one matching runtime for each remaining cluster. |
| EndpointEvents.StateChanges | pkg/server/cluster_manager.go:425-442 | The changes are exactly the difference of the two address sets, each key once, under one version. |
| EndpointEvents.NotifyKeepsTelling | pkg/server/cluster_manager.go:400-442 | A mutation that notifies its exact difference under a new version keeps the log telling the store's addresses. |
| EndpointEvents.AnnounceKeepsTelling | pkg/server/cluster_manager.go:139-149 | Announcing a set of addresses under a new version keeps the log right even where some were announced before. |
| EndpointEvents.TellsOneSet | pkg/server/cluster_manager.go:425-442 | While nothing is sent the log stays right exactly as long as the addresses stay the same. |
| EndpointEvents.DeliveriesConverge | pkg/server/cluster_manager.go:364-442 | A consumer that keeps the highest version per key ends with exactly the store's addresses, in any delivery order and even with repeated deliveries. |
| ClusterManager.Manager.AddCluster | pkg/server/cluster_manager.go:139-149 | Appends the prepared cluster, under a generated name if it has none, with a runtime of its own; the store stays consistent exactly when the name is not in use, and its notifications stay right in any case. |
| ClusterManager.GeneratedNamesDiffer | pkg/server/cluster_manager.go:733-736 | The names made up for unnamed clusters differ and are numbered. |
| ClusterManager.Manager.UpdateCluster | pkg/server/cluster_manager.go:151-165 | Replaces an existing cluster's configuration and runtime in place; a missing cluster changes nothing but ownership. A replaced runtime with health checks inherits the health of its predecessor, and no verdict on an endpoint that keeps its ID and address is lost. |
| ClusterManager.Manager.SetEndpoint | pkg/server/cluster_manager.go:319-329 | Sets one endpoint of a cluster, created on first use; an unchanged list leaves the runtime untouched. Verdicts carry over. The store stays consistent exactly when the name is not empty; for an empty name the contract gives the cluster and the two runtimes that result, and that the address is told only if it was known. |
| ClusterManager.Manager.DeleteEndpoint | pkg/server/cluster_manager.go:331-341 | Deletes one endpoint; a missing cluster or ID changes no configuration and no runtime. The others keep their verdicts. |
| ClusterManager.Manager.RemoveClusters | pkg/server/cluster_manager.go:658-724 | Removes exactly the named clusters, their runtimes and their ownership; defined unless a configured name is given twice. |
| ClusterManager.Manager.ReplaceXdsClusters | pkg/server/cluster_manager.go:195-260 | Accepted exactly when every cluster is named, once, and not outside xDS; rejected it changes nothing, accepted it leaves every other cluster, its place and its runtime identical, and replaced runtimes keep the verdicts on endpoints that stay. |
| ClusterManager.Manager.UpsertXdsCluster | pkg/server/cluster_manager.go:169-190 | Refused without effect for a cluster that xDS does not own; otherwise changes that cluster alone, and what consumers were told stays right exactly when the cluster's addresses do not change. |
| ClusterManager.Manager.UpdateAddressHealth | pkg/cluster/cluster.go:159-185 | A verdict reaches the snapshot of that cluster's runtime and nothing else, and the store stays consistent. |
| ClusterManager.Manager.CompareAndSetStore | pkg/server/cluster_manager.go:514-542 | A stale store changes nothing; a current one is installed in order, owned by nobody, each name's runtime serving the last configuration of that name with the verdicts on endpoints that stay, and its difference is notified. The result is consistent exactly when the names are distinct and not empty. |
| ClusterManager.ConsumersConverge | pkg/server/cluster_manager.go:364-442 | Whatever the order of delivery, a consumer of the manager's notifications knows exactly the addresses of the configured clusters. |
| ClusterManager.UpdatedKeys | pkg/server/cluster_manager.go:151-165 | The difference of one cluster's addresses is the difference of the whole store's. |
| ApiConfigView.EventKeepsMeaningIff | pkg/config/api_config.go:453-607 | Handling an event keeps the table equal to what the store means, if and only if the event does not bring back a resource whose methods are still stored. |
| ApiConfigLog.FoldIsMeaningIff | pkg/config/api_config.go:453-607 | Folding any log over any starting table gives what the resulting store means if and only if every resource is told of or was right at the start, and every method of a live resource was last changed after the resource last appeared, is gone, or was right at the start. |
| ApiConfigLog.LoadedAndFollowedIff | pkg/config/api_config.go:236-308 | Started from the rebuilt table of a store that a rebuild is right about, the fold is right exactly when every stored method of a live resource was last put after the resource last appeared. |
| ApiConfigLog.RecreatedResourceLosesMethods | pkg/config/api_config.go:536-561 | Deleting and putting again a resource with stored methods leaves a wrong table, whatever the start. |
| ApiConfigLog.PutMethodIsKept | pkg/config/api_config.go:586-607 | In every log, a method put while its resource is there is in the table until an event changes it or deletes the resource, whatever came before. |
| ApiConfigView.RebuildIsMeaningIff | pkg/config/api_config.go:325-409 | A rebuild gives what the store means if and only if every method has its resource and no resource has two methods of one verb. |
| ApiConfigLog.FoldIsRebuildIff | pkg/config/api_config.go:260-308 | For logs that tell everything, folding and rebuilding agree exactly when a rebuild is right about the final store; where it is, they agree exactly for the logs that tell everything. |
| ApiConfigView.RebuiltRows | pkg/config/api_config.go:325-371 | A rebuilt table never has two methods of one verb in a resource and has a row for every listed method. |
| ApiConfigView.View.HandleEvent | pkg/config/api_config.go:453-607 | On the resource list, one event has exactly its effect on the table and keeps resource and method IDs distinct. |
| ApiConfigView.View.MergeMethod | pkg/config/api_config.go:586-607 | A method put replaces the method with its ID or adds one, and is dropped without its resource. |
| ApiConfigView.View.MergeResource | pkg/config/api_config.go:547-561 | A resource put replaces all but the methods of a known resource, or adds one. |
| ApiConfigView.View.RemoveResource | pkg/config/api_config.go:536-545 | Removes the resource with its methods and nothing else. |
| ApiConfigView.View.RemoveMethod | pkg/config/api_config.go:567-584 | Removes that method and nothing else. |
| ApiConfigView.View.Rebuild | pkg/config/api_config.go:260-409 | The rebuilt list stands for the table that the resources and the method list determine. |
| RouteIdentity.JoinSplit | pkg/model/router_snapshot.go:210-216 | Joining the parts of a key gives the key back. |
| RouteIdentity.SplitJoin | pkg/model/router_snapshot.go:210-216 | Splitting joined parts gives the parts back. |
| RouteIdentity.TrieRouteIdentity | pkg/model/router_snapshot.go:188-217 | The scan that avoids copying returns exactly what splitting, replacing and joining returns, for every key: the same segments in the same order, with "*" for each later segment that starts with a colon or is "*". |
| RouteIdentity.ParameterNamesDoNotMatter | pkg/common/util/stringutil/stringutil.go:48-62 | Keys that differ only in the name behind the colon of a later segment, or have a wildcard there, have one identity. |
| RouteIdentity.IdentityDecidesSegments | admin/logic/route_binding.go:915-924 | Two keys have one identity exactly when their segments agree up to the spelling of variables, and exactly when the Admin's conflict keys are equal. |
| RouteTrie.IdentityIsWalkAndRest | pkg/common/router/trie/trie.go:155-182 | Keys of one method have one identity if and only if they walk the same trie edges and the segments behind a match-all segment, which the walk never sees, agree as well. |
| RouteTrie.IdentityIsWalk | pkg/model/router_snapshot.go:186-217 | Where match-all segments stand only at the end, one identity is one walk. |
| RouteTrie.ContinuedMatchAllSharesNode | pkg/common/router/trie/trie.go:175-182 | Every key with a match-all segment can be continued to two keys that walk to one node but have different identities and conflict keys. |
| RouteTrie.PutWritesOneNode | pkg/common/router/trie/trie.go:155-440 | A put writes its candidate list on the node that its whole key walks to, unless an earlier one ended there, and on no other node. |
| RouteTrie.PutIsRefusedIff | pkg/common/router/trie/trie.go:364-440 | A put is refused exactly when an earlier one ended on that node. |
| RouteSnapshot.AddVisitsLast | pkg/model/router_snapshot.go:62-81 | Adding a candidate makes it the last one visited and keeps the count. |
| RouteSnapshot.KeyStartsWithMethod | pkg/common/util/stringutil/stringutil.go:73-98 | A trie key starts with its method, so keys of different methods never share an identity. |
| RouteKeys.KeySegments | pkg/common/util/stringutil/stringutil.go:86-97 | A key has its method and then the segments of the path; one slash at either end of the path does not count. |
| RouteKeys.PrefixKeyEndsInAll | pkg/common/util/stringutil/stringutil.go:73-109 | The key of a prefix route ends in a match-all segment, for every prefix without a query, if and only if the prefix is not a bare scheme. |
| RouteSnapshot.ToSnapshot | pkg/model/router_snapshot.go:120-184 | Every node of every method's trie points to the list of exactly the routes whose keys lead to it, in configuration order, and to none if there are no such routes; header-only routes are kept apart in order. |
| RouteSnapshot.RouteIsFiled | pkg/model/router_snapshot.go:120-184 | Every route is filed under each of its methods, or under the seven usual ones if it has none; one with headers but neither path nor prefix is kept with the header-only routes instead. |
| RouteSnapshot.FiledIsRoute | pkg/model/router_snapshot.go:120-184 | Nothing else is filed. |
| RouteSnapshot.CandidatesAreOnNode | pkg/model/router_snapshot.go:147-183 | The candidates filed under the identity of a node's routes are exactly the routes that lead to the node. |
| RouteSnapshot.BrokenKeyIsOnNoNode | pkg/common/router/trie/trie.go:155-182 | A route with a match-all segment before its end is on no node. |
| RouteMatch.MatchIsFirstYield | pkg/common/router/trie/trie.go:208-315 | The recursive search returns the node of the first pattern, in one fixed order, that exists, ends a key or is a match-all node, and is accepted, for every trie, request and predicate. |
| RouteMatch.PatternsFit | pkg/common/router/trie/trie.go:208-315 | The patterns tried are exactly those that fit: each segment by itself or a variable; a match-all edge takes all that is left, which may be nothing only behind a literal. |
| RouteMatch.MatchInTrieIsRouted | pkg/common/router/router.go:155-205 | The search in a built trie, with its header predicate, finds exactly what the configured routes say: the first candidate, in configuration order, of the first pattern that has a matching one, unless a pattern before it leads to a node without candidates. |
| RouteMatch.RoutedIff | pkg/common/router/router.go:155-205 | A request gets a candidate if and only if some fitting pattern has a matching one and no pattern before it blocks. |
| RouteMatch.RoutesAreFound | pkg/common/router/router.go:155-205 | Where match-all segments stand at the end of keys only, a request gets a candidate if and only if some route of the method fits its segments and headers, and the candidate is that of such a route. |
| RouteMatch.BrokenKeyHidesRoute | pkg/common/router/router.go:159-178 | Otherwise not: for every pair of a route that goes on behind a match-all segment and a route for everything, a request below the former is refused although the latter applies. |
| RouteMatch.SnapshotServesIff | pkg/model/router_snapshot.go:120-184 | From configuration to request: in the snapshot of such routes the search finds a candidate if and only if one of the configured routes takes the request. |
| RouteMatch.MethodAllowed | pkg/model/router_snapshot.go:89-101 | A header-only route is open to every method if it names none, to all if it names "*", and else to those it names. |
| RouteMatch.RouteRequest | pkg/common/router/router.go:119-150 | A request goes to the first header-only route that takes it; without one, to what the routes of its method say, then to what those of the method "*" say. |

## Left out

- HTTP controllers, JWT, DAOs, the web UI, tracing, metrics, wasm and the Kubernetes controller: plumbing around the mechanisms above.
- YAML and JSON encoding, key patterns and URL escaping: keys and values are typed, and watch events enter after classification. The key patterns also match keys of the unpublished namespace; the model has published keys only.
- The schema compiler and the string helpers: parameters of the route model. That the Admin's conflict key separates exactly the keys that the snapshot's identity separates is `IdentityDecidesSegments`; where that is one trie node is `IdentityIsWalkAndRest`.
- The variable values of a match, removal from a trie, and the trie of the API configuration. Trie nodes are values here, updated in place in the code.
- RouteSnapshot.ToSnapshot: speaks of the tries for methods that are not empty and contain no slash. What removes query, scheme and authority from a path is a parameter there, and `CleanPath` in `RouteKeys`.
- Routing by path and method name without a request (`RouteByPathAndName`), which searches with no header predicate.
- RouteMatch.RouteRequest: whether compiled header matchers meet a request is a parameter, and an action without a cluster, which is answered with an error, is not told apart.
- Methods embedded in a Resource value and nested Resources: they share one route key per Resource, so the conflict check skips pairs inside one Resource.
- Draft writes of bindings (`SaveDraft`, ID allocation, `Rollback`): arbitrary draft writes of other clients in the protocol model. Rollback re-reads the draft after its commit, so it is not one atomic step.
- RouteConflicts.RoutesNeverConflict: for runs whose commits are steady, said of what each committing client has read: trimming the verb changes no key of a route that a legacy publish changes, a binding's route has the same key with its path trimmed, and no Method without a path is moved by a binding that takes its Resource ID. `PublishesKeepRoutesApartIff` and `BindingKeepsRoutesApartIff` show the first two to be exact where Methods have paths of their own, and `MovedMethodBreaksRoutes` is the failing input for the third.
- Etcd rejects a transaction that names a key twice and skips revisions of keys it does not change; neither is modelled.
- Bits of the 64-bit chain word are written as arithmetic on its unsigned value; a retired bit is a value of at least 2^63.
- AddListener, RemoveListener, UpsertXDSListener and RemoveXDSListeners: they do not all pass through the gate or keep the ownership set in step. The lazy creation of a chain for a listener without one is not modelled either.
- RequestGate.StepKeepsInvariant: an acquire, a release and a retirement are single steps here, which `ChainRefinement.StepRefines` justifies; an acquire refused because 2^63 - 1 requests hold the chain is not modelled here.
- Sockets: that a port is free after a listener stopped accepting is an answer of the `Environment`.
- Health-check goroutines, timers and load balancers.
- Resolver name, certificate directory and domains beyond the first of an endpoint's address, which only take part in the content comparison of SetEndpoint.
- Missing (nil) endpoints are modelled in assembly and snapshot building, but not in the manager, where deleting an endpoint dereferences every slot.
- ClusterManager.Manager.AddCluster: the counter of generated names does not wrap around.
- ClusterManager.Manager.SetEndpoint: promises a consistent store and right notifications for a non-empty name only. With an empty one the code adds the cluster under a generated name, puts the endpoint into a second runtime under the empty name, and compares address snapshots of the empty name; the contract states that outcome.
- ClusterManager.Manager.RemoveClusters: requires that no configured name is given twice, because the code then dereferences the configuration it has just cleared.
- ClusterManager.Manager.CompareAndSetStore: the candidate has no runtimes of its own, as a cloned or new store has none; the round-robin cursors it carries over are not modelled.
- The API configuration's watch: it is opened after the load and anew for each batch, so events in between are not delivered. The logs in `ApiConfigLog` are the events that are handled.
- ApiConfigView.View.Rebuild: requires each method key once, as a key-value list has it. Base information is not modelled.
