# kgateway: a verified model of its core

kgateway is a control plane for Envoy. This project models the parts of it that hold state
or depend on order, and proves what they keep:

- the registry of connected xDS clients, as the class the callbacks use and as a state
  machine in which the callbacks of any number of streams, the state lock and the
  recomputation worker interleave (`ClientIdentity`, `ClientRegistry`,
  `ClientProtocol`, `ClientHistory`);
- status: condition lists, the status builders, and the split and reduction of reports into
  contributions, on values and on the storage behind them (`Conditions`, `Reports`,
  `GatewayStatus`, `ListenerSetStatus`, `StatusContents`, `RouteStatus`, `PolicyStatus`,
  `Contributions`, `ReportSplit`, `ReportStorage`);
- the validation caches, run by one caller and by concurrent callers (`ValidatorCache`,
  `ValidatorProtocol`);
- index lookups, precedence orders, ListenerSet attachment, endpoint deduplication and the
  gRPC match translation (`RefGrants`, `PolicyIndex`, `PolicyOrder`, `ListenerSets`,
  `Endpoints`, `GrpcRoutes`);
- the merge of parameter layers (`ParameterMerge`).

`Common`, `Text` and `Sorting` hold what the others share. Results about orders are stated with
`Text.Before`, the lexicographic order of characters, and results about built values field by
field, not through the functions that compute them. `SortFunc` is modelled as "any
sorted permutation", so a result is deterministic only where ties are ruled out. Map
iteration and fetch results come in any order. The clock, pod lookups, hashes, the
marshaller and Envoy's verdict are parameters.

Where a promise does not hold for every input, a lemma gives the failing input or family and
another gives the exact condition:

- the sorted and grouped policies are independent of input order exactly when the list holds
  no *inversion* of policies of two kinds (`PolicyOrder.GroupsAnyOrderIffNoInversion`);
- contributions reduce alike in every sort exactly when those that tie for a part agree on it
  (`Contributions.ReduceAlikeIffWinnersAgree`);
- a split report map is strictly sorted exactly when it reports no name twice for one group
  and kind (`ReportSplit.SplitStrictIffKeysDistinct`, `ReportSplit.TwoVersionsCollapse`);
- a lookup by name is the scan by name exactly for targets with a name
  (`PolicyIndex.NamedLookupIffNamed`);
- the ListenerSet sort has one answer exactly when no two sets tie
  (`ListenerSets.OneOrderIffNoTies`, `ListenerSets.TwoKindsTie`);
- address and port pairs are independent of slice order exactly when slices agree on shared
  addresses (`Endpoints.PairsAnyOrderIffAgree`);
- a service-only gRPC rule keeps its meaning exactly when the service name is not misleading,
  a method-only rule exactly when the method holds no regular expression operator
  (`GrpcRoutes.ServiceOnlyIff`, `GrpcRoutes.MethodOnlyIff`);
- a regular expression rule over names keeps its meaning exactly when a bar adds nothing after
  the first service and the first method (`GrpcRoutes.BarsInBothIff`,
  `GrpcRoutes.BarsInServiceIff`, `GrpcRoutes.BarsInMethodIff`);
- map and slice merges associate exactly when a reset in the middle is not absorbed
  (`ParameterMerge.MapsAssociateIff`, `ParameterMerge.SlicesAssociateIff`).

The comment on `BuildRouteStatus` says that parents of other controllers are carried over
from the current status. The code leaves them out, and so does the model.

## Model

| member | source | states |
|---|---|---|
| `ClientIdentity.RewrittenRoleIsGatewayKey` | pkg/krtcollections/uniqueclients.go:268-312 | deriving an identity from a gateway role gives a non-empty name that is itself a gateway cache key |
| `ClientIdentity.ClientCarriesPod` | pkg/krtcollections/uniqueclients.go:268-312 | the client derived from a pod has its namespace, labels and locality, the role of the gateway its labels name, and a name made of role, label hash and namespace |
| `ClientIdentity.ClientWithoutPod` | pkg/krtcollections/uniqueclients.go:268-312 | without a pod the client is its role alone |
| `ClientRegistry.PublishValid` | pkg/krtcollections/uniqueclients.go:393-423 | a stream joining its bucket keeps every refcount equal to the number of live streams of the bucket, and the bucket and refcount maps on the same keys |
| `ClientRegistry.RemoveValid` | pkg/krtcollections/uniqueclients.go:247-266 | a stream leaving keeps them equal; the bucket goes exactly with its last stream |
| `ClientRegistry.ConfirmValid` | pkg/krtcollections/uniqueclients.go:534-554 | confirming a live stream keeps the registry valid |
| `ClientRegistry.MembersBelowWidth` | pkg/krtcollections/uniqueclients.go:247-266 | a bucket never has so many live streams that its unsigned count would wrap |
| `ClientRegistry.EmptyWhenAllClosed` | pkg/krtcollections/uniqueclients.go:247-266 | with no live stream all four maps are empty |
| `ClientRegistry.ViewIsNotVacuous` | pkg/krtcollections/uniqueclients.go:490-513 | every listed bucket has a live stream, so "all confirmed" is about at least one |
| `ClientRegistry.PublishMarks` | pkg/krtcollections/uniqueclients.go:393-423 | a joining stream leaves every other bucket listed as it was, mark included |
| `ClientRegistry.RemoveMarks` | pkg/krtcollections/uniqueclients.go:247-266 | a closing stream clears no mark |
| `ClientRegistry.ConfirmMarks` | pkg/krtcollections/uniqueclients.go:534-554 | a confirmation clears no mark |
| `ClientRegistry.CallbacksCollection.Del` | pkg/krtcollections/uniqueclients.go:247-266 | the new state of all four maps; the returned client is the bucket that lost its last stream |
| `ClientRegistry.CallbacksCollection.StreamClosed` | pkg/krtcollections/uniqueclients.go:239-245 | the stream is removed and a recomputation is always triggered |
| `ClientRegistry.CallbacksCollection.Add` | pkg/krtcollections/uniqueclients.go:314-423 | the verdict and the new state: a follow-up never changes the registry, a new stream is published unless its version is refused or it names a pod that is not there |
| `ClientRegistry.CallbacksCollection.TryConfirmLocalCluster` | pkg/krtcollections/uniqueclients.go:534-554 | a change is recorded and reported exactly when the stream is not yet known to name its local cluster, its bucket is listed, and the request names the non-empty local cluster of that bucket |
| `ClientRegistry.CallbacksCollection.ObserveLocalClusterRequest` | pkg/krtcollections/uniqueclients.go:519-530 | the same for requests for endpoints, and a trigger exactly when something was recorded |
| `ClientRegistry.CallbacksCollection.NewStream` | pkg/krtcollections/uniqueclients.go:451-481 | one accepted request: the registry, the role written back to the node, and a trigger whenever the view changed |
| `ClientRegistry.CallbacksCollection.GetClients` | pkg/krtcollections/uniqueclients.go:490-513 | each bucket listed exactly once, marked exactly when all its live streams confirmed |
| `ClientProtocol.RunInv` | pkg/krtcollections/uniqueclients.go:187-554 | every interleaving of open, request and close steps keeps the invariant over registry, lock, callbacks and worker |
| `ClientProtocol.RegistryMatchesStreams` | pkg/krtcollections/uniqueclients.go:247-423 | in every reachable state refcounts are live-stream counts, bucket and refcount maps agree, no count is zero, confirmations belong to live streams, and no streams means empty maps |
| `ClientProtocol.NoLostRecomputation` | pkg/krtcollections/uniqueclients.go:187-245 | a stale published collection means someone still has to trigger or recompute; at rest it is current |
| `ClientProtocol.LockDiscipline` | pkg/krtcollections/uniqueclients.go:239-245 | no trigger is issued by a callback holding the state lock; the registry is written only by the sole holder |
| `ClientProtocol.IdentityNeverChanges` | pkg/krtcollections/uniqueclients.go:332-391 | a live stream keeps its name and pinned role until it is closed |
| `ClientProtocol.MarkMeansAllConfirmed` | pkg/krtcollections/uniqueclients.go:490-513 | in every reachable state a mark means that all, and at least one, of the bucket's live streams confirmed |
| `ClientProtocol.MarkClearedOnlyByJoin` | pkg/krtcollections/uniqueclients.go:102-115 | a mark goes from true to false only in a step where a new stream joins that bucket |
| `ClientProtocol.FollowUpVerdict` | pkg/krtcollections/uniqueclients.go:332-391 | a follow-up is rejected exactly when the pinned role and the present pod derive to another name; a missing or unchanged pod is accepted |
| `ClientProtocol.RewrittenNodePassesGate` | pkg/krtcollections/uniqueclients.go:427-475 | where roles come from node metadata, a request that reuses the rewritten node is still treated as a gateway's |
| `ClientProtocol.RejectionChangesNothing` | pkg/krtcollections/uniqueclients.go:314-423 | no step of a callback that ends rejected changed the registry or asked for a recomputation |
| `ClientProtocol.SomethingCanMove` | pkg/krtcollections/uniqueclients.go:314-554 | while work is in flight some of it can move: the lock does not deadlock |
| `ClientProtocol.InternalStepsShrink` | pkg/krtcollections/uniqueclients.go:187-554 | every step of in-flight work lowers a measure |
| `ClientProtocol.DrainEndsFresh` | pkg/krtcollections/uniqueclients.go:187-209 | after any run in-flight work ends within a bound, at rest, with the current clients published |
| `ClientHistory.KnownStreamsNamedTheirCluster` | pkg/krtcollections/uniqueclients.go:519-554 | after any run a stream is known only if, since it joined, it sent an endpoint request that names the non-empty local cluster of its bucket |
| `ClientHistory.NamingTheClusterIsRecorded` | pkg/krtcollections/uniqueclients.go:519-554 | conversely, when the callback of such a request returns without rejecting it, the stream is known |
| `ClientHistory.PeersOfRun` | pkg/krtcollections/uniqueclients.go:212-245 | the caller known for a stream is that of its last open that gave one, not closed since |
| `ClientHistory.StreamsAreLetIn` | pkg/krtcollections/uniqueclients.go:314-423 | after any run every live stream was let in by a request of its own whose version was accepted: its pinned role is what that request claims, from its node or under authentication from its caller, and its bucket is named after that role and the pod record found |
| `ClientHistory.ListedClientsComeFromRequests` | pkg/krtcollections/uniqueclients.go:268-423 | after any run every listed client stands under its own name and has the namespace, labels, locality and gateway role of a pod record that a request of the run was looked up as, or of none, with the claimed role |
| `ClientHistory.HandledIffGateway` | pkg/krtcollections/uniqueclients.go:427-449 | a request is handled exactly when the role it claims starts with the gateway prefix |
| `ValidatorCache.RehydrateMemoize` | pkg/validator/cache.go:38-55 | a verdict read back from the cache has the same text and the same ErrInvalidXDS identity |
| `ValidatorCache.SharedKey` | pkg/validator/validator.go:262-280 | two bootstraps share a key exactly when they marshal to the same bytes without their log configuration; so a change of the log configuration alone keeps the key |
| `ValidatorCache.KeySharedIffSameBody` | pkg/validator/validator.go:262-280 | with a marshaller that tells bodies apart, exactly when the bodies are the same |
| `ValidatorCache.CachingValidator.Validate` | pkg/validator/cache.go:72-124 | the answer is the verdict of Envoy on the marshalled bootstrap without its log configuration, or the transient error of the call just made; the inner validator runs exactly on a miss; only verdicts are stored |
| `ValidatorCache.Memo.Validate` | pkg/validator/memo.go:65-87 | the same for the memo over a validating function |
| `ValidatorProtocol.AnswersAreFaithful` | pkg/validator/cache.go:72-124 | under any concurrency, eviction and failure, every answer is the verdict on the marshalled bootstrap without its log configuration, or a transient error that an inner call for the same key produced |
| `ValidatorProtocol.CachesHoldVerdicts` | pkg/validator/memo.go:65-87 | in every reachable state each entry of both caches is the verdict for its key; no transient error is cached |
| `ValidatorProtocol.OneInnerCallPerKey` | pkg/validator/cache.go:72-124 | at most one inner call per key is in flight |
| `ValidatorProtocol.WaitersAreServed` | pkg/validator/cache.go:72-124 | a waiter's flight has its result or is led by a caller still at work |
| `ValidatorProtocol.SomethingCanMove` | pkg/validator/cache.go:72-124 | while a call is unfinished, some caller or inner call can move |
| `ValidatorProtocol.EveryCallIsAnswered` | pkg/validator/cache.go:72-124 | a run makes at most seven moves per call, and callers and inner calls can move exactly as long as a call is unanswered |
| `Conditions.ReportsHaveUniqueTypes` | pkg/reports/reporter.go:265-273 | every run of SetCondition calls leaves unique condition types |
| `Conditions.CompareConditions` | pkg/reports/report_map.go:221-236 | the loop decides conditionsEqual |
| `Conditions.EqualIffSameFacts` | pkg/reports/report_map.go:221-236 | on unique types conditionsEqual holds exactly when the two lists state the same set of facts, whatever their order and transition times |
| `Conditions.ConditionsEqualIsEquivalence` | pkg/reports/report_map.go:221-236 | so it is reflexive, symmetric and transitive there |
| `Conditions.SymmetricIffUnique` | pkg/reports/report_map.go:221-236 | a list that equals a list of unique types is equalled by it exactly when its own types are unique |
| `Conditions.RepeatedTypesBreakSymmetry` | pkg/reports/report_map.go:221-236 | a pair of lists for which it is not symmetric; SetCondition never builds the first |
| `Conditions.CarryOver` | pkg/reports/status.go:427-436 | each owned condition takes the report's facts and generation and keeps the old time exactly when the current status has the type with the same status value |
| `Conditions.PreserveOthers` | pkg/reports/status.go:437-449 | what the builder does not own is kept, as the function whose shape the next rows state |
| `Conditions.PreserveComplete` | pkg/reports/status.go:437-449 | no condition that should be kept is lost |
| `Conditions.BuildShape` | pkg/reports/status.go:123-142 | a built list has unique types whatever the current status holds: the stamped owned conditions, then carried-over ones |
| `Conditions.BuildFixpoint` | pkg/reports/status.go:123-142 | building again on top of what was built changes nothing, at any later clock |
| `Conditions.BuildSays` | pkg/reports/status.go:123-142 | a built list type by type: the wanted condition with the report's generation and, if the status did not change, the time it had; for a type that is not wanted, what is kept |
| `GatewayStatus.BuildGWStatus` | pkg/reports/status.go:50-152 | the builder computes the modelled status; none without a report |
| `GatewayStatus.HandleInvalidAddresses` | pkg/reports/status.go:190-214 | the address loop |
| `GatewayStatus.GatewayFixpoint` | pkg/reports/status.go:50-152 | rebuilding the Gateway status on top of itself returns it unchanged: conditions, listeners and order |
| `GatewayStatus.GatewayConditionsStamped` | pkg/reports/status.go:111-142 | unique types; owned conditions carry the report's generation and keep the old time exactly when the status value is unchanged |
| `GatewayStatus.GatewayVerdicts` | pkg/reports/status.go:614-659 | what Accepted, Programmed and ResolvedRefs say, for every combination of report, addresses, invalid listeners, held-back parameters and unresolved listeners |
| `GatewayStatus.ListenerVerdicts` | pkg/reports/status.go:696-732 | what each listener condition says: the reported status, otherwise healthy |
| `GatewayStatus.InvalidMeansUnprogrammed` | pkg/reports/status.go:50-109 | the listeners counted as invalid are those reported as not programmed, once each |
| `GatewayStatus.ListenersFixpoint` | pkg/reports/status.go:50-109 | the rebuilt listener statuses are the built ones, also when a name is repeated |
| `ListenerSetStatus.BuildListenerSetStatus` | pkg/reports/status.go:283-404 | the builder computes the modelled status |
| `ListenerSetStatus.ListenerSetFixpoint` | pkg/reports/status.go:283-404 | rebuilding changes nothing |
| `ListenerSetStatus.UnprogrammedCount` | pkg/reports/status.go:283-404 | the invalid count reaches the listener count exactly when all are unprogrammed, zero exactly when none is |
| `ListenerSetStatus.ListenerSetVerdicts` | pkg/reports/status.go:668-687 | rejected and unprogrammed when no listener is programmed, accepted when only some are not, otherwise as reported |
| `StatusContents.ListenerTold` | pkg/reports/status.go:50-109 | each built listener has the name and kinds of its report, the attached routes counted for it or else reported, as a 32-bit number, and each condition type says what is reported or the default |
| `StatusContents.InvalidAreDown` | pkg/reports/status.go:50-109 | the names and messages collected are those of the listeners reported as not programmed, in order |
| `StatusContents.GatewayTold` | pkg/reports/status.go:50-152 | the built Gateway status, whole: its addresses, its count of attached ListenerSets where positive, one entry per listener of the spec, and for every condition type what report, addresses, frontend mode, unprogrammed and unresolved listeners make it say, with text; InsecureFrontendValidationMode is set exactly when the default or a port allows insecure fallback |
| `StatusContents.ListenerSetTold` | pkg/reports/status.go:283-404 | the same for a ListenerSet; a rejected set shows no listeners |
| `RouteStatus.KeyRoundTrip` | pkg/reports/reporter.go:440-515 | key to reference to key is the identity |
| `RouteStatus.ParentStringInjective` | pkg/reports/status.go:604-612 | on slash-free fields equal strings mean equal key and port |
| `RouteStatus.SlashesCollide` | pkg/reports/status.go:604-612 | with a slash two different keys can print alike; the API refuses such names |
| `RouteStatus.ParentStringLayout` | pkg/reports/status.go:604-612 | a reference prints as group/kind/name/section/port.namespace, a missing field as empty or zero |
| `RouteStatus.CollectRefs` | pkg/reports/reporter.go:493-510 | one reference per key, in map order |
| `RouteStatus.InferredRefsAnyOrder` | pkg/reports/reporter.go:493-515 | the inferred parents do not depend on map iteration order |
| `RouteStatus.BuildRouteStatus` | pkg/reports/status.go:478-600 | none without a report or for another kind; otherwise parents in the character order of their printed references, one for each time the spec lists a reference the report knows, or one per parent of the report when the spec lists none; each with the given controller, and for every condition type what the report says or the default, stamped with the report's generation, beside what the entry held before |
| `RouteStatus.RouteFixpoint` | pkg/reports/status.go:478-600 | rebuilding on top of itself, at any clock, changes nothing |
| `RouteStatus.RouteRebuild` | pkg/reports/status.go:525-535 | nor does a rebuild that infers the parents in another iteration order |
| `RouteStatus.ParentVerdicts` | pkg/reports/status.go:734-761 | each parent condition: the reported status, otherwise healthy |
| `RouteStatus.ParentTold` | pkg/reports/status.go:537-585 | in every entry Accepted, ResolvedRefs and Programmed say what the report says for its parent, otherwise True, and every reported condition is there with its reason, message and the report's generation |
| `RouteStatus.RouteStatusShape` | pkg/reports/status.go:537-600 | the same about the status as a function of the report and the references |
| `PolicyStatus.BuildPolicyStatus` | pkg/reports/policy.go:118-197 | none without a report; otherwise one entry for each ancestor of the report, in the character order of their printed references, each with the given controller, and for every condition type what report, attachment state and defaults make it say, stamped, beside what the entry held before |
| `PolicyStatus.PolicyStatusShape` | pkg/reports/policy.go:118-197 | the same about the status as a function of the report |
| `PolicyStatus.AncestorVerdicts` | pkg/reports/policy.go:207-262 | overridden beats merged beats attached, an attachment state beats a reported Attached, silence means pending |
| `PolicyStatus.PolicyStatusAnyOrder` | pkg/reports/policy.go:88-197 | the built ancestors do not depend on map iteration order |
| `PolicyStatus.PolicyFixpoint` | pkg/reports/policy.go:118-197 | rebuilding changes nothing, whatever the two iteration orders and clocks |
| `PolicyStatus.BuildBackendStatus` | pkg/reports/status.go:417-452 | every condition type says what is reported, stamped; Accepted and EndpointsDiscovered go with their report, other types are kept |
| `PolicyStatus.BackendFixpoint` | pkg/reports/status.go:417-452 | rebuilding changes nothing, and an owned type the report dropped is gone |
| `Contributions.ComparatorLaws` | pkg/reports/status_contribution.go:168-185 | the comparator is antisymmetric and ties only on equal target and source |
| `Contributions.ComparatorOrders` | pkg/reports/status_contribution.go:168-185 | it is a total preorder on every list |
| `Contributions.ComparatorDirection` | pkg/reports/status_contribution.go:168-185 | the first field that differs, in the order target group, kind, namespace, name, source kind, name, decides, in character order |
| `Contributions.GreatestBySource` | pkg/reports/status_contribution.go:168-185 | for one target the greatest contribution is the one whose source no other comes after, by kind and then name; the least is the mirror |
| `Contributions.ReduceStatusContributions` | pkg/reports/status_contribution.go:198-234 | the caller's slice is left sorted and the result is the fold of it |
| `Contributions.ReduceAnyOrder` | pkg/reports/status_contribution.go:198-234 | with distinct identities the reduction is the same for every input order and every sort |
| `Contributions.ReduceAlikeIffWinnersAgree` | pkg/reports/status_contribution.go:198-234 | every sort reduces to the same report exactly when contributions that tie for a part agree on it: the greatest for a parent, ancestor or whole report, the least for a generation |
| `Contributions.TiesDependOnOrder` | pkg/reports/status_contribution.go:198-234 | two contributions of one identity, two sorts, two results; a collection keyed by ResourceName (pkg/reports/status_contribution.go:74-77) holds one contribution per identity, so this needs a caller that builds its own list |
| `Contributions.RouteSources` | pkg/reports/status_contribution.go:215-220 | a parent is reported exactly when some source reports it, then by the greatest such source; the generation is the least source's |
| `Contributions.PolicySources` | pkg/reports/status_contribution.go:221-226 | the same for policy ancestors |
| `Contributions.SingleWriterSources` | pkg/reports/status_contribution.go:205-231 | Gateway, ListenerSet and Backend reports come from the greatest source that has one |
| `ReportSplit.AppendSlots` | pkg/reports/status_contribution.go:102-158 | one of the append loops: for each report of a map that is not nil one contribution, with the group, kind, namespace and name of its object, the given source and the report |
| `ReportSplit.StatusContributionsFromReportMap` | pkg/reports/status_contribution.go:90-162 | a sorted list with, for each Gateway, ListenerSet, route of four kinds, policy and backend report that is not nil, exactly one contribution with the literal group and kind, the namespace and name of its key, the source and the report, and no others |
| `ReportSplit.SplitStrictIffKeysDistinct` | pkg/reports/status_contribution.go:90-162 | the list is strictly sorted exactly when the map reports no name twice for one group and kind: not under two versions of a ListenerSet kind, not as a ListenerSet or policy of a fixed kind, not as policy and ListenerSet |
| `ReportSplit.VersionsCollapse` | pkg/reports/status_contribution.go:111-121 | a map that reports one name under two versions of a kind has no strictly sorted split |
| `ReportSplit.TwoVersionsCollapse` | pkg/reports/status_contribution.go:111-121 | such a map; the two kinds in use, ListenerSet and XListenerSet, differ in group, so it takes a second served version |
| `ReportSplit.SplitThenReduce` | pkg/reports/status_contribution.go:90-234 | with such keys, an object's share of the list is its one contribution, and reducing it gives back exactly the report the map held |
| `ReportStorage.CopyEntries` | pkg/reports/report_map.go:12-40 | the clone and merge loops: every source entry overwrites, in new storage |
| `ReportStorage.Clone` | pkg/reports/report_map.go:42-136 | an equal report with storage of its own |
| `ReportStorage.Merge` | pkg/reports/report_map.go:12-40 | the destination's entries become the union in favour of the source; what is added is new storage and the source is untouched |
| `ReportStorage.ReduceStored` | pkg/reports/status_contribution.go:198-234 | the loop of the reduction on storage: the value of the reduction on values, every object of the result new, every contribution unchanged |
| `RefGrants.IndexKeys` | pkg/krtcollections/policy.go:1092-1106 | the keys of a grant are exactly those of its From and To pairs |
| `RefGrants.TwoLookupsFindGrants` | pkg/krtcollections/policy.go:1124-1137 | the two lookups find a grant exactly when it grants the reference, by any name or by this one |
| `RefGrants.RefGrantIndex.constructor` | pkg/krtcollections/policy.go:1091-1108 | the index maps each key to exactly the grants indexed under it |
| `RefGrants.RefGrantIndex.ReferenceAllowed` | pkg/krtcollections/policy.go:1110-1138 | allowed exactly when validation is off, the namespaces are equal, the target is a global kind without namespace, or some grant says so |
| `RefGrants.KeyStringInjective` | pkg/krtcollections/policy.go:1075-1077 | key strings tell keys with slash-free fields apart |
| `RefGrants.LookupByString` | pkg/krtcollections/policy.go:1075-1077 | so a lookup by the printed key finds exactly what the lookup by the key finds |
| `PolicyIndex.IndexKeys` | pkg/krtcollections/policy.go:822-843 | the array holds exactly the named and unnamed keys of the policy's refs |
| `PolicyIndex.SelectsLabels` | pkg/krtcollections/policy.go:895-909 | the filter finds exactly the policies with a ref of the key whose labels match |
| `PolicyIndex.Fetch` | pkg/krtcollections/policy.go:867-915 | both fetches return the eligible policies the query hits, in order |
| `PolicyIndex.EligibleAnyOrder` | pkg/krtcollections/policy.go:867-881 | the policies offered do not depend on the order in which the collections and their entries are visited |
| `PolicyIndex.EligibleAre` | pkg/krtcollections/policy.go:867-881 | a policy is offered exactly if a collection holds it that the lookup reads: any, or for a backend lookup one whose plugin handles backends |
| `PolicyIndex.NamedHits` | pkg/krtcollections/policy.go:822-843 | what the lookup by name finds, for every target |
| `PolicyIndex.NamedLookupIffNamed` | pkg/krtcollections/policy.go:958-966 | it is the scan by name exactly for targets whose name is not empty |
| `PolicyIndex.LabelHits` | pkg/krtcollections/policy.go:883-915 | the lookup by labels is the scan by label selector in one namespace |
| `PolicyIndex.NoLabelsSelectNothing` | pkg/krtcollections/policy.go:969-970 | skipping the label lookup for an object without labels loses nothing |
| `PolicyIndex.TargetingPolicies` | pkg/krtcollections/policy.go:958-988 | each eligible policy is found once for naming the target and once for selecting its labels from the target's or the global namespace, no other is found |
| `PolicyIndex.KeyStringInjective` | pkg/krtcollections/policy.go:739-741 | key strings tell keys with slash-free fields apart |
| `PolicyIndex.LookupByString` | pkg/krtcollections/policy.go:739-741 | so a lookup by the printed key finds exactly what the lookup by the key finds |
| `PolicyOrder.ComparatorAntisymmetric` | pkg/krtcollections/policy.go:1007-1027 | the comparator is antisymmetric on every pair |
| `PolicyOrder.ComparatorDirection` | pkg/krtcollections/policy.go:1007-1027 | a comes first exactly when it is the heavier of one kind, or otherwise older, or equally old with a sort key not above |
| `PolicyOrder.SortKeyLayout` | pkg/pluginsdk/ir/gw.go:52-64 | how the sort key of an attachment reads |
| `PolicyOrder.OrdersIffNoInversion` | pkg/krtcollections/policy.go:1007-1027 | it orders a list exactly when the list holds no inversion |
| `PolicyOrder.StrictTotalOrder` | pkg/krtcollections/policy.go:1007-1027 | on one kind with distinct keys it is a strict total order |
| `PolicyOrder.IdInjective` | pkg/pluginsdk/ir/gw.go:52-64 | within one lookup the identity string determines a slash-free reference |
| `PolicyOrder.ToAttachedPolicies` | pkg/krtcollections/policy.go:1682-1707 | each kind keeps its attachments in list order |
| `PolicyOrder.GroupsAnyOrder` | pkg/krtcollections/policy.go:1007-1027 | without an inversion the sorted and grouped lists are the same for every input order |
| `PolicyOrder.GroupsAnyOrderIffNoInversion` | pkg/krtcollections/policy.go:1007-1027 | the sorted and grouped lists are the same for every input order exactly when the list holds no inversion |
| `PolicyOrder.InversionReordersGroup` | pkg/krtcollections/policy.go:1007-1027 | whatever list holds an inversion, two of its orders put its heavier and its lighter policy in opposite orders within their group |
| `PolicyOrder.InversionWitness` | pkg/krtcollections/policy.go:1007-1027 | three concrete policies for which this happens |
| `PolicyOrder.GetTargetingPolicies` | pkg/krtcollections/policy.go:938-1028 | exactly the attachments of the global policies and of the offered policies that target the object, with the kind, reference, weight, creation time and generation of each; without an inversion ordered within a kind by weight, heaviest first, then by age, oldest first, then by sort key |
| `PolicyOrder.LookupListed` | pkg/krtcollections/policy.go:938-1028 | the same about every result of a lookup |
| `PolicyOrder.GroupInOrder` | pkg/krtcollections/policy.go:1682-1707 | so within its group a heavier policy precedes a lighter, and an older one an equally heavy younger |
| `PolicyOrder.AttsDistinct` | pkg/krtcollections/policy.go:990-1005 | the attachments of one lookup have distinct sort keys |
| `PolicyOrder.TargetingAnyOrder` | pkg/krtcollections/policy.go:938-1037 | two lookups that visit the plugins, the collections and their entries in different orders return the same list and the same groups, when no attachments of the target form an inversion |
| `ListenerSets.AsSelector` | pkg/krtcollections/policy.go:717-723 | a label selector is refused exactly when it is malformed, otherwise its requirements hold exactly when all its pairs and expressions do |
| `ListenerSets.AllowedListenerSet` | pkg/krtcollections/policy.go:703-729 | an error exactly for a missing or malformed selector, otherwise a test that admits exactly the namespaces that may attach |
| `ListenerSets.PrecedenceOrders` | pkg/krtcollections/policy.go:597-611 | the precedence comparator is a total preorder |
| `ListenerSets.PrecedenceDirection` | pkg/krtcollections/policy.go:597-611 | a set comes first exactly when it is older, or equally old with its namespace/name not above |
| `ListenerSets.Attach` | pkg/krtcollections/policy.go:571-688 | the fetched sets left in place oldest first, equal ages by namespace/name; all the Gateway's own listeners and then all those of the sets that may attach, set by set, each with its parent; under each kind all its sets, with the reason for each denial |
| `ListenerSets.EachSetOnce` | pkg/krtcollections/policy.go:626-678 | every set lands in exactly one map, under its own kind, as often as it was fetched |
| `ListenerSets.AllowedInPrecedenceOrder` | pkg/krtcollections/policy.go:597-678 | the sets whose listeners are appended are those that may attach, oldest first, equal ages by namespace/name in character order |
| `ListenerSets.OlderSetsFirst` | pkg/krtcollections/policy.go:597-678 | in the Gateway's listeners those of an older set precede those of a younger, and with equal age those of the set whose namespace/name is below |
| `ListenerSets.AttachAnyOrder` | pkg/krtcollections/policy.go:590-611 | the order used does not depend on the fetch order, for sets with distinct namespace and name |
| `ListenerSets.OneOrderIffNoTies` | pkg/krtcollections/policy.go:597-611 | the sort has one answer exactly when no two sets share creation time and namespace/name |
| `ListenerSets.TwoKindsTie` | pkg/krtcollections/policy.go:597-611 | sets of two kinds with one creation time, namespace and name tie, and then both orders of their listeners are possible |
| `Endpoints.FindPortForService` | pkg/krtcollections/endpoints.go:278-286 | the first service port with the number, and whether it is the only port |
| `Endpoints.FindPortInEndpointSlice` | pkg/krtcollections/endpoints.go:288-307 | the number of the first candidate port, 0 if there is none |
| `Endpoints.PortFound` | pkg/krtcollections/endpoints.go:288-324 | a port is found exactly when the number of the first port that serves the Service port is not 0, and it is that number: any port of a Service with one port, else the port of the same name, of the target port's name, or without a name of the target port's number |
| `Endpoints.EndpointsForBackend.Add` | pkg/pluginsdk/ir/model.go:321-323 | an endpoint is appended to the group of its locality |
| `Endpoints.InLocalityHolds` | pkg/pluginsdk/ir/model.go:321-323 | a group holds exactly the endpoints added for its locality |
| `Endpoints.TransformK8sEndpoints` | pkg/krtcollections/endpoints.go:92-214 | nothing for a backend without the port, otherwise the endpoints of the nested loops |
| `Endpoints.PreScanIsRedundant` | pkg/krtcollections/endpoints.go:134-145 | the scan for a port ahead of the loops never changes the result |
| `Endpoints.LogHolds` | pkg/krtcollections/endpoints.go:148-209 | each address at most once; an address exactly when a slice with a port offers it on an endpoint that is ready or does not say, with the port of the first such slice |
| `Endpoints.EntriesAreFaithful` | pkg/krtcollections/endpoints.go:172-206 | every endpoint has the port of the first slice that offers its address and, from the first endpoint there, the locality and labels of the known pod it refers to, in the slice's namespace unless it names one, or none; mutual TLS exactly when enabled and labelled |
| `Endpoints.AddressesAnyOrder` | pkg/krtcollections/endpoints.go:148-209 | the address set does not depend on slice order |
| `Endpoints.PairsAnyOrderIffAgree` | pkg/krtcollections/endpoints.go:148-209 | the address and port pairs are the same for every slice order exactly when slices agree on shared addresses |
| `GrpcRoutes.ConvertGRPCMatchesToHTTP` | pkg/krtcollections/grpc_route.go:87-106 | one HTTP match per gRPC match, in order, with the built path and the converted headers |
| `GrpcRoutes.ConvertGRPCHeadersToHTTP` | pkg/krtcollections/grpc_route.go:149-160 | one header match per header match, field by field |
| `GrpcRoutes.ServiceOnlyIff` | pkg/krtcollections/grpc_route.go:135-138 | the prefix match accepts what the service match accepts, for all requests, exactly when the service name is not empty and does not spell another service's path |
| `GrpcRoutes.MethodOnlyIff` | pkg/krtcollections/grpc_route.go:139-142 | the regular expression accepts what the method match accepts, for all requests, exactly when the method holds no operator, a bar included |
| `GrpcRoutes.ExactAgrees` | pkg/krtcollections/grpc_route.go:130-143 | for Exact matches the HTTP path match accepts /S/M exactly when the gRPC match accepts S and M |
| `GrpcRoutes.RegexAgrees` | pkg/krtcollections/grpc_route.go:117-129 | the same for RegularExpression matches without bars |
| `GrpcRoutes.PartByPart` | pkg/krtcollections/grpc_route.go:117-142 | a pattern joined with a slash matches a request path part by part |
| `GrpcRoutes.BarsInBothIff` | pkg/krtcollections/grpc_route.go:117-122 | with names as alternatives, a rule with service and method keeps its meaning for all requests exactly when it names one service and its method alternatives are one method |
| `GrpcRoutes.BarsInServiceIff` | pkg/krtcollections/grpc_route.go:123-125 | a rule with a service alone exactly when it names one service |
| `GrpcRoutes.BarsInMethodIff` | pkg/krtcollections/grpc_route.go:126-128 | a rule with a method alone exactly when its alternatives are one method |
| `GrpcRoutes.BarEscapes` | pkg/krtcollections/grpc_route.go:117-122 | an instance: two services joined by a bar, with a method, are both refused |
| `GrpcRoutes.AnyLanguages` | pkg/krtcollections/grpc_route.go:117-142 | for any two languages, joining them with slashes accepts a request path exactly when each accepts its part |
| `GrpcRoutes.ListAgrees` | pkg/krtcollections/grpc_route.go:87-160 | a converted match list accepts a request exactly when the gRPC list does |
| `ParameterMerge.DeepMergeMaps` | pkg/deployer/merge.go:58-70 | the merged value, and which of the two map objects is returned and written |
| `ParameterMerge.MapIdentityAndReset` | pkg/deployer/merge.go:58-70 | nil is a two-sided identity, an explicit empty map resets |
| `ParameterMerge.SliceIdentityAndReset` | pkg/deployer/merge.go:72-85 | the same for slices |
| `ParameterMerge.MapsAssociateIff` | pkg/deployer/merge.go:58-70 | grouping matters exactly when the middle layer is an explicit empty map, the last is not empty and the first has a key the last lacks |
| `ParameterMerge.SlicesAssociateIff` | pkg/deployer/merge.go:72-85 | for slices exactly when the middle layer is an explicit empty slice and the others are not empty |
| `ParameterMerge.ResetIsAbsorbed` | pkg/deployer/merge.go:72-85 | a concrete chain of three layers where grouping matters |
| `ParameterMerge.MapLayerKeys` | pkg/deployer/merge.go:58-70 | over any chain a key is set exactly when a layer after the last explicit empty map sets it |
| `ParameterMerge.MapLayers` | pkg/deployer/merge.go:58-70 | with the value of the last layer that sets it |
| `ParameterMerge.SliceLayers` | pkg/deployer/merge.go:72-85 | over any chain the layers after the last explicit empty slice are joined in order |
| `ParameterMerge.LastNonZero` | pkg/deployer/merge.go:94-104 | over any chain a comparable value is the last that is not zero |
| `ParameterMerge.LastNonNil` | pkg/deployer/merge.go:45-54 | over any chain a pointer is the last that is not nil |
| `ParameterMerge.DeepMergeImage` | pkg/deployer/merge.go:608-668 | the merged fields; the destination is updated in place, a missing one is a new copy |
| `ParameterMerge.MergeImageLayers` | pkg/deployer/merge.go:608-668 | a chain of layers merges to the modelled value and no layer is written to |
| `ParameterMerge.TagAndDigestFromOneLayer` | pkg/deployer/merge.go:638-665 | when tag and digest are both set, both come from one layer, the last that mentions either |
| `ParameterMerge.TagFromLastLayer` | pkg/deployer/merge.go:638-665 | over any chain the tag is that of the last layer that sets it or sets a digest, cleared if that layer sets only a digest |
| `ParameterMerge.NoTag` | pkg/deployer/merge.go:638-665 | and nil if there is no such layer |
| `ParameterMerge.DigestFromLastLayer` | pkg/deployer/merge.go:638-665 | the same for the digest |
| `ParameterMerge.NoDigest` | pkg/deployer/merge.go:638-665 | and nil if there is no such layer |
| `ParameterMerge.OtherFieldsFromLastLayer` | pkg/deployer/merge.go:608-637 | registry, repository and pull policy are each the last layer's that sets them |
| `ParameterMerge.LastActionWins` | pkg/deployer/merge.go:331-351 | over any chain the probe handler is, whole, the last layer's that has an action |
| `ParameterMerge.AtMostOneAction` | pkg/deployer/merge.go:331-351 | layers with at most one action each merge to at most one action |

## Left out

- ValidatorCache.SharedKey: the hashes are taken to be free of collisions.
- GrpcRoutes.RegexAgrees: expressions of literals, `.` and `+` without bars; rules with bars have their exact condition for alternatives that are names. Other operators are not parsed; GrpcRoutes.AnyLanguages covers whatever they accept once they bind tighter than concatenation.
- GrpcRoutes.MethodOnlyIff: for methods of literals, `.`, `+` and `|` without slash or newline.
- PolicyOrder.GroupsAnyOrderIffNoInversion: the sort is plain insertion, which is what the library's stable sort runs on up to twenty entries; how it merges longer blocks under a comparator with cycles is not modelled.
- ListenerSets.AsSelector: the syntax of label keys and values is a parameter.
- ListenerSets.Attach: the policies attached to each listener are not carried (PolicyOrder.GetTargetingPolicies computes them), and setting a missing kind on the fetched object is a function of the object.
- Endpoints.EndpointsForBackend.Add: the equality hash kept beside the groups is not modelled.
- ParameterMerge.DeepMergeMaps: DeepMergeSlices and deepMergeProbeHandler are modelled on values; spare capacity of a slice and action objects shared between layers are not captured.
- ReportStorage.Clone: the group pointer inside a supported kind is shared by the copy in the original too; it is modelled as a value.
- ReportStorage.ReduceStored: takes the contributions already sorted; Contributions.ReduceStatusContributions does the sort in place.
- ValidatorCache.CachingValidator.Validate: the recency order of the LRU; eviction is arbitrary.
- Client callbacks: the first-connect delay, logging, metrics, the fetch-request path and requests without a node.
- Panics inside a shared validation call, and cancellation of a waiting caller.
- Running Envoy or Docker and normalising their output.
- Backend aliases (getBackendFromAlias), the HTTP route index and route delegation.
- Merging built statuses with parents and ancestors of other controllers, and the caps on their number: these happen in the status syncer.
- The field-by-field struct merges of the deployer beyond the generic ones, and rendering and patching of its charts.
- The krt library itself: dependency tracking and informers. An index lookup returns the objects whose extracted keys hold the key.
