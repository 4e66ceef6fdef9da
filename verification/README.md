# Katalyst core: verified model

This project models six parts of Katalyst, a resource management system for Kubernetes, and proves what
they keep over every input, every order of events and every run.

- **Configuration targets (KCC).** A custom-config target claims nodes by name, by label selector at a
  priority, or globally. `Selectors` holds the decision procedure that says whether two selectors can match
  the same node, `Targets` the validation built on it, `Matching` the choice of a node's target, `TargetSync`
  the gate in front of the rollout, `Cnc` the configuration list of a node, and `Rollout`, `RolloutSchedule`,
  `RolloutPass` and `RolloutProgress` the rate-limited canary rollout with its sixteen parallel workers.
- **Node topology (CNR).** `KeyedMerge`, `InOrderMerge`, `ZonePayload`, `PayloadLaws`, `ZoneMerge` and
  `ZoneLaws` are the recursive left-biased merge of topology zones, and `ZoneFacts` says what it answers to every
  question about a zone. `TopologyGenerator` is the tree builder whose cache points into the tree it builds, a heap
  structure, `TopologyStatus` the status made from it, and `StatusFacts` what that reports of the given lists.
- **Tide node pools.** `TidePool` holds labels and roles, `TideReconcile` the quota pass, `TideRelease` the
  release of a deleted pool's nodes, `TideBalance` the online/offline balancing, and `TideRuns` what holds over
  any interleaving of the writes of several pools.
- **Eviction manager.** `EvictionObservations` is the timed state machine of thresholds and conditions,
  `EvictionTaints` the taints made from conditions, `EvictionCollector` and `EvictionGrace` the collector with
  its shared deletion options, `EvictionManager` a whole sync.
- **Service profiles (SPD).** `SpdBaseline` decides which pods are baseline pods, `SpdCache` keeps a node's
  list of profiles.
- **Allocation store (ORM).** `AllocationStore` is the three-level map of allocations and its checkpoint.

`Keys`, `Sorting`, `KeyedLists` and `Scaling` are shared: strings compared as Go compares them, stable sorting,
lists kept by key, and counts given as numbers or percentages.

Code that updates things in place is a class or a method with loops; its contract ties the new state to a
function of the old one, and the laws are proved about that function. A Go map is walked by taking any
remaining key, so that independence of the order is part of every such contract. The API server is an atomic
store whose answers (`accept`, `ok`, `allow`) are parameters; the clock, the scheduler simulation, pod
validation, the eviction order and the JSON encoding are parameters too. Times are integer nanoseconds,
percentages integer arithmetic.

Some expected properties do not hold of the code; each is stated with the exact condition under which it does.
The overlap check is exact, against supported selectors with one requirement per key, for selectors whose keys
only have to exist or are listed with requirements that agree, and for no others
(`Selectors.ExactIffPrecise`). Validation guards the nodes only with exactly one KCC
(`TargetSync.GateIffOneKCC`). A selector that does not parse keeps selector targets away from a node only if the
highest priority among those counted as matching is shared (`Matching.UnparsableBlocksIff`). Adding a nested node as a
root breaks the topology (`TopologyGenerator.Generator.AddNode`), which the NUMA builder does in some order unless
its map is consistent (`TopologyGenerator.ConsistentIffEveryWalkSound`). The reported status satisfies the conditions
of the merge laws only if the reporter's lists do (`TopologyStatus.StatusCanonicalIff`). The offline role needs one key for online and
offline (`TidePool.OfflineRoleIffOneTypeKey`). A node switched to offline work gets the taint against online
pods only if it already had one of the pool's taints or both taints share a key
(`TideBalance.OfflineSwitchRepelsOnline`). A synced profile list is free of repetitions only if it was before
(`SpdCache.SyncCNC`).

## Model

| member | source | states |
|---|---|---|
| Selectors.GetMatchValueSet | pkg/controller/kcc/kcct.go:993-1015 | the values a selector requires and excludes on a key, and whether it uses only operators the check understands |
| Selectors.CheckKeyOverlap | pkg/controller/kcc/kcct.go:975-989 | whether one key keeps the two selectors apart |
| Selectors.CheckLabelSelectorOverlap | pkg/controller/kcc/kcct.go:972-991 | a negative answer means no label map satisfies both selectors; the answer is symmetric |
| Selectors.OverlapSound | pkg/controller/kcc/kcct.go:972-1015 | labels matched by both selectors are never reported as separate: any operators, several requirements per key, unlisted keys |
| Selectors.OverlapSymmetric | pkg/controller/kcc/kcct.go:972-991 | swapping the selectors does not change the answer |
| Selectors.OverlapExact | pkg/controller/kcc/kcct.go:972-1015 | for supported selectors whose requirements on one key agree and that meet only on listed keys, the answer is positive exactly if some label map satisfies both |
| Selectors.OverlapExactMeeting | pkg/controller/kcc/kcct.go:972-1015 | the same when both selectors may also have keys that only have to exist, listed or not |
| Selectors.PreciseOverlapExact | pkg/controller/kcc/kcct.go:972-1015 | for any two selectors whose keys only have to exist or are listed with requirements that agree, several per key included, the answer is positive exactly if some label map satisfies both |
| Selectors.OnePerKeyUniform | pkg/controller/kcc/kcct.go:993-1015 | one requirement per key is enough for that agreement |
| Selectors.ExactIffPrecise | pkg/controller/kcc/kcct.go:972-1015 | for every selector the parser can build: the check agrees with satisfiability against all supported partners with one requirement per key if and only if the selector is selectable and each of its keys either only has to exist, or is listed and has supported requirements that agree |
| Selectors.OverlapNotExact | pkg/controller/kcc/kcct.go:993-1015 | two inputs on which the check is wrong: a repeated key and an unsupported operator, both reported as overlapping although no label map satisfies both selectors |
| Targets.GetPriorityAllowedKeyListMap | pkg/controller/kcc/kcct.go:786-793 | the allowed keys of each priority |
| Targets.ValidateSelectorKeys | pkg/controller/kcc/kcct.go:795-831 | the keys of a selector that its priority does not allow |
| Targets.ValidateLabelSelectorOverlapped | pkg/controller/kcc/kcct.go:833-876 | the other targets of the same priority whose selectors overlap |
| Targets.ValidateNodeNamesOverlapped | pkg/controller/kcc/kcct.go:891-912 | the other targets that list one of the node names |
| Targets.ValidateGlobalOverlapped | pkg/controller/kcc/kcct.go:927-944 | the other global targets |
| Targets.ValidateTargetResourceGenericSpec | pkg/controller/kcc/kcct.go:748-784 | the verdict on a target, error paths included; valid if and only if the target obeys the documented rules |
| Targets.ValidIffRules | pkg/controller/kcc/kcct.go:740-944 | a target is valid if and only if: it has no selector or no node names; it has a duration exactly if it has node names; its selector parses, can select, uses only keys of the last entry for its priority and overlaps with no other selector of that priority; no other target lists one of its names; and if it is global, no other is |
| Targets.ClashBlamesBoth | pkg/controller/kcc/kcct.go:748-944 | of two well-formed targets that compete for a node, each is rejected and names the other |
| Targets.ValidTargetsDisjoint | pkg/controller/kcc/kcct.go:748-944 | if all targets are valid, no two of them list one node name, match one label map at one priority, or are global |
| Matching.FindMatchedKCCTargetListForNode | pkg/controller/kcc/util/kcct.go:127-169 | the targets that match a node, in order |
| Matching.FindMatchedKCCTargetConfigForNode | pkg/controller/kcc/util/kcct.go:102-125 | the chosen target, and when none matches or the choice is ambiguous |
| Matching.ChosenExists | pkg/controller/kcc/util/kcct.go:102-169 | with valid targets a node is left without one only if nothing matches it |
| Matching.ValidTargetsDecide | pkg/controller/kcc/util/kcct.go:95-169 | with valid targets the choice is the one target that applies by the precedence rules |
| Matching.UnparsableChosen | pkg/controller/kcc/util/kcct.go:102-169 | a selector that does not parse is chosen when it is alone, and over a matching target of lower priority |
| Matching.UnparsableBlocksIff | pkg/controller/kcc/util/kcct.go:102-169 | on a node that no target names, a selector that does not parse keeps every target away if and only if the highest priority among the selectors counted as matching is shared |
| Cnc.IsCNCUpdated | pkg/controller/kcc/util/kcct.go:39-55 | whether the node has the target with this hash |
| Cnc.ApplyKCCTargetConfigToCNC | pkg/controller/kcc/util/kcct.go:57-93 | the list with the entry of the type replaced, or appended and sorted |
| Cnc.AppliedMeaning | pkg/controller/kcc/util/kcct.go:57-93 | an applied configuration counts as updated and nothing else of the node changes |
| Cnc.AppliedKeepsOrder | pkg/controller/kcc/util/kcct.go:57-93 | a sorted list without repetitions stays so and has no stale entry of the type |
| Cnc.RemoveUnusedTargetConfig | pkg/util/cnc.go:24-38 | exactly the entries to keep remain, in order |
| Rollout.FindOwner | pkg/controller/kcc/kcct.go:486-506 | the target of one node, deleted nodes left out |
| Rollout.GroupCNCsByKCCT | pkg/controller/kcc/kcct.go:478-509 | the groups are the nodes of each target in order, and the rest is unmatched |
| Rollout.MembersMeaning | pkg/controller/kcc/kcct.go:478-509 | a group lists each of its nodes once, in increasing order, and no other; a node belongs to it if and only if it is not being deleted and the target is chosen for it, or carries its name |
| Rollout.GenerateConfigHashes | pkg/controller/kcc/kcct.go:511-543 | the targets whose hash could be computed go on |
| Rollout.CanaryCutoff | pkg/controller/kcc/kcct.go:558-586 | the whole group without a canary value, a plain number kept within the group, the greatest number within the group that does not exceed the percentage of it, and none exactly for a malformed value |
| Rollout.CutoffMeaning | pkg/controller/kcc/kcct.go:558-586 | the same about the cutoff that the canaries of a target are defined by |
| Rollout.ComputeCanaryCutoffPoints | pkg/controller/kcc/kcct.go:545-593 | every target with a meaningful canary value gets the cutoff of its group, the others are dropped |
| Rollout.CutoffGrows | pkg/controller/kcc/kcct.go:545-593 | a raised canary value does not lower the cutoff, up to the whole group |
| Rollout.CanaryGrows | pkg/controller/kcc/kcct.go:545-593 | raising or dropping a target's canary value keeps every canary of it, in order, and may add more |
| Rollout.CandidatesMeaning | pkg/controller/kcc/kcct.go:595-640 | the candidates are exactly the outdated canaries of unpaused targets in their own group, and no node occurs twice |
| RolloutPass.CollectTasks | pkg/controller/kcc/kcct.go:605-637 | what is collected is a prefix of the candidates, one per granted token, and the pass is limited if and only if a token was refused |
| RolloutPass.PatchOne | pkg/controller/kcc/kcct.go:644-661 | an accepted patch applies the configuration to its own slot |
| RolloutPass.PatchAll | pkg/controller/kcc/kcct.go:641-665 | in any order of the updates, exactly the accepted slots hold the applied configuration |
| RolloutPass.InterleavedIsPass | pkg/controller/kcc/kcct.go:641-665 | any interleaving of the workers, cancelled or not, is a pass in which exactly the finished updates count as accepted |
| RolloutSchedule.RunMeaning | pkg/controller/kcc/kcct.go:641-661 | in any interleaving of the workers' reads and writes no worker sees another one's write to its slot |
| RolloutSchedule.EveryInterleavingAgrees | pkg/controller/kcc/kcct.go:641-661 | interleavings that finish the same tasks leave the same slice |
| RolloutSchedule.OutcomeUnique | pkg/controller/kcc/kcct.go:641-661 | the outcome of a set of tasks is one slice |
| RolloutPass.ManageCNCs | pkg/controller/kcc/kcct.go:429-476 | one pass patches granted candidates only, each node at most once, and reports the status of every managed target |
| RolloutPass.CountUpdated | pkg/controller/kcc/kcct.go:677-698 | the counts of updated nodes, in the group and in all |
| RolloutPass.UpdateTargetStatuses | pkg/controller/kcc/kcct.go:667-713 | every managed target gets the status that describes the slice after the pass |
| RolloutPass.StatusConsistent | pkg/controller/kcc/kcct.go:667-713 | updated target nodes never exceed target nodes or updated nodes, canaries never exceed target nodes |
| RolloutProgress.GroupsFixed | pkg/controller/kcc/kcct.go:478-593 | updating configurations moves no node to another group or canary prefix |
| RolloutProgress.PassRemovesAccepted | pkg/controller/kcc/kcct.go:595-665 | a pass removes exactly the accepted updates from what is due |
| RolloutProgress.InterleavedRemovesFinished | pkg/controller/kcc/kcct.go:641-665 | after any interleaving, cancelled or not, exactly the finished updates are no longer due |
| RolloutProgress.PassMakesProgress | pkg/controller/kcc/kcct.go:595-665 | a pass with a token and no failed patch lowers what is due by the number of tasks, strictly until nothing is due |
| RolloutProgress.RolloutConverges | pkg/controller/kcc/kcct.go:429-476 | a run of such passes ends with nothing due after as many passes as updates were due |
| RolloutProgress.FinishedStays | pkg/controller/kcc/kcct.go:429-476 | once nothing is due no pass patches anything |
| RolloutProgress.CanariesUpdated | pkg/controller/kcc/kcct.go:595-713 | after an unthrottled pass without failures the canary count does not exceed the updated target nodes |
| RolloutProgress.RelistingKeepsOrder | pkg/controller/kcc/kcct.go:433-440 | listing the same nodes in another order gives the next pass the same slice |
| RolloutProgress.PassKeepsOrder | pkg/controller/kcc/kcct.go:433-476 | a pass keeps the slice sorted by node name |
| TargetSync.ValidateKCCTs | pkg/controller/kcc/kcct.go:359-427 | the invalid targets, none when the number of KCCs is not one; an error if and only if the one KCC cannot be read or a needed status write fails |
| TargetSync.SyncKCCTs | pkg/controller/kcc/kcct.go:287-357 | the targets that are not being deleted and have no duration or one that ends later; nodes are managed if and only if one is left, every other one was cleaned up and, if validation is on, the one KCC can be read and all targets are valid, or, without exactly one KCC, every status was written |
| TargetSync.GateMeaning | pkg/controller/kcc/kcct.go:336-427 | the same condition, for every answer of the API server |
| TargetSync.ActiveMeaning | pkg/controller/kcc/kcct.go:295-335 | which listed targets go on |
| TargetSync.ManagedNodesAreDecided | pkg/controller/kcc/kcct.go:287-427 | with one KCC, whenever nodes are managed every node's target is decided by the precedence rules |
| TargetSync.GateIffOneKCC | pkg/controller/kcc/kcct.go:287-427 | validation keeps invalid targets away from nodes, whatever the answers of the API server, if and only if it is on and exactly one KCC matches |
| TargetSync.RivalsRejected | pkg/controller/kcc/kcct.go:914-944 | two global targets reject each other under any KCC |
| KeyedMerge.MergeToSorted | pkg/util/cnr.go:271-300 | fold both lists into a map by key, walk it in any order and sort: the result does not depend on the order |
| KeyedMerge.MergeIsUnion | pkg/util/cnr.go:271-300 | on canonical lists the merge is the canonical list of the union |
| KeyedMerge.MergeIdempotent | pkg/util/cnr.go:271-398 | merging a canonical list with itself changes nothing |
| KeyedMerge.MergeAssociative | pkg/util/cnr.go:271-398 | three merges give one result however they are nested |
| InOrderMerge.MergeInPlace | pkg/util/cnr.go:230-269 | update entries in place by index and append the new ones |
| InOrderMerge.InOrderMeaning | pkg/util/cnr.go:230-269 | the entries are the union, old keys first and new keys in their order |
| InOrderMerge.InOrderIdempotent | pkg/util/cnr.go:230-269 | merging a list with itself changes nothing |
| InOrderMerge.InOrderAssociative | pkg/util/cnr.go:230-269 | three merges give one result, order included |
| ZonePayload.MergeResourceLists | pkg/util/native/resources.go:183-205 | merged resource lists |
| ZonePayload.FirstMentionWins | pkg/util/native/resources.go:183-205 | the first list that mentions a resource decides its quantity |
| ZonePayload.MergeResources | pkg/util/cnr.go:221-228 | capacity, allocatable, pools and packages merged field by field; of capacity and allocatable, each resource has the first list's quantity if that has one, else the second's |
| ZonePayload.MergeResourcePackages | pkg/util/cnr.go:230-247 | packages merged in place by name |
| ZonePayload.MergeResourcePools | pkg/util/cnr.go:249-269 | pools merged in place by name |
| ZonePayload.MergeAttributes | pkg/util/cnr.go:271-300 | attributes merged by name and sorted, for every map order |
| ZonePayload.MergeAllocations | pkg/util/cnr.go:313-352 | allocations merged by consumer and sorted, missing entries skipped |
| ZonePayload.MergeSiblings | pkg/util/cnr.go:354-398 | siblings merged by type and name, with their attributes |
| PayloadLaws.AttributesLeftBiased | pkg/util/cnr.go:271-300 | every attribute name of either list occurs once, with the first list's value if it has one |
| PayloadLaws.PayloadCanonical | pkg/util/cnr.go:221-398 | everything a zone carries stays sorted and free of repetitions, and merging it with itself changes nothing |
| PayloadLaws.PayloadAssociative | pkg/util/cnr.go:221-398 | merging what zones carry is associative |
| PayloadLaws.PoolsCanonicalIff | pkg/util/cnr.go:249-269 | for any two lists: the merged pools have distinct names and sorted attributes if and only if the first list names none twice and the attributes of every pool named once in both lists together are sorted |
| PayloadLaws.PackagesCanonicalIff | pkg/util/cnr.go:230-247 | the same for packages |
| PayloadLaws.SiblingsCanonicalIff | pkg/util/cnr.go:354-398 | merging siblings into an empty list gives sorted attributes everywhere if and only if every sibling that comes alone has them |
| ZoneMerge.MergeTopologyZone | pkg/util/cnr.go:402-462 | the recursive merge ends, and its result does not depend on map order |
| ZoneMerge.MergeZoneInto | pkg/util/cnr.go:437-446 | the merge of two zones with one key |
| ZoneLaws.MergedLevel | pkg/util/cnr.go:402-462 | each level of the result is the sorted union of the two levels |
| ZoneLaws.MergedCanonical | pkg/util/cnr.go:402-462 | canonical forests merge into a canonical forest, at every level |
| ZoneLaws.MergedIdempotent | pkg/util/cnr.go:402-462 | merging a forest with itself changes nothing |
| ZoneLaws.MergedAssociative | pkg/util/cnr.go:402-462 | merging three forests gives one result however the merges are nested |
| ZoneLaws.MergedPaths | pkg/util/cnr.go:402-462 | the paths of the result are those of both forests, and each carries the merge of what they say |
| ZoneLaws.PathsDetermine | pkg/util/cnr.go:402-462 | canonical forests that agree on every path are equal, so the paths describe the merge completely |
| Keys.StrLessMeaning | pkg/util/cnr.go:454-459 | a string is smaller if it ends first or has the smaller character where the two first differ |
| Keys.LessMeaning | pkg/util/cnr.go:454-459 | keys are compared by type first and by name second |
| ZoneLaws.LevelOrder | pkg/util/cnr.go:454-459 | the zones of a merged level come by type and, within a type, by name |
| ZoneFacts.PayloadLeftBiased | pkg/util/cnr.go:221-398 | every question about a merged zone (quantities of capacity, allocatable, pool maximum and minimum, package and consumer; attributes of the zone, its pools, packages and siblings; presence of each) is answered as the first zone does, and as the second one where the first is silent |
| ZoneFacts.MergedAnswers | pkg/util/cnr.go:402-462 | the same at every path of merged forests, which have the paths of both |
| ZoneFacts.MergedOrder | pkg/util/cnr.go:230-269 | pools and packages of the first zone keep their order and new ones follow in theirs |
| ZoneFacts.AnswersDetermine | pkg/util/cnr.go:221-398 | canonical zones with the same answers and the same order of pools and packages carry the same, so the answers describe the merge completely |
| TopologyGenerator.ZoneTopology.constructor | pkg/util/cnr_topology.go:58-63 | an object without children |
| TopologyGenerator.Generator.constructor | pkg/util/cnr_topology.go:79-85 | an empty valid tree |
| TopologyGenerator.Generator.Attach | pkg/util/cnr_topology.go:92-112 | a new object hangs under its parent and in the cache; a valid tree without the node stays valid with it |
| TopologyGenerator.Generator.AddNode | pkg/util/cnr_topology.go:90-115 | the structure stays an acyclic forest with every node once and the cache pointing into it if and only if no nested node is added as a root; an error only for an unknown parent; a node that hangs at two places does so for good; valid or not, every object hangs under an older one |
| TopologyGenerator.NewNumaSocketTopologyZoneGenerator | pkg/util/cnr.go:519-543 | for every map and every order there is no error; the result is the one valid tree with sockets as roots if and only if no socket was walked as a NUMA node before a node was seen on it, otherwise a node hangs at two places |
| TopologyGenerator.AddNuma | pkg/util/cnr.go:522-536 | one step of the walk: the tree grows as expected, or a buried socket makes a node hang at two places |
| TopologyGenerator.UnsoundWalk | pkg/util/cnr.go:519-543 | a walk that breaks the tree, for every map in which a socket sits on another one |
| TopologyGenerator.ConsistentIffEveryWalkSound | pkg/util/cnr.go:519-543 | every order gives the valid tree if and only if a socket that is also listed as a NUMA node sits on itself |
| TopologyStatus.GenerateUnder | pkg/util/cnr_topology.go:130-194 | for every tree that can be built, valid or not, the walk ends and the zones under an object are those of its children, for every map order |
| TopologyStatus.GenerateTopologyZoneStatus | pkg/util/cnr_topology.go:118-128 | for every tree that can be built the status is sorted at every level and its paths are exactly those through the objects, each with its node's information; in a valid tree these are the chains of parents from a root, and a node that hangs at two places is reported at both; the status meets the conditions of the merge laws if and only if every reported node's lists were given in order |
| TopologyStatus.StatusSorted | pkg/util/cnr_topology.go:130-194 | the status is sorted without repetitions at every level |
| TopologyStatus.StatusPaths | pkg/util/cnr_topology.go:130-194 | its paths are exactly those through the objects, each with its node's information |
| TopologyStatus.LeadsIffChain | pkg/util/cnr_topology.go:90-194 | in a valid tree the paths through the objects are the chains of parents |
| TopologyStatus.NodeReported | pkg/util/cnr_topology.go:130-194 | every node is at the end of such a chain |
| TopologyStatus.NodeReportedOnce | pkg/util/cnr_topology.go:130-194 | and of only one, so it is reported once, under its parent |
| TopologyStatus.ReportedListsCanonical | pkg/util/cnr_topology.go:150-180 | attributes and allocations are reported sorted and without repetitions whatever was given |
| TopologyStatus.PayloadCanonicalIff | pkg/util/cnr_topology.go:146-176 | everything reported for a node is sorted and free of repetitions if and only if its resources name no pool and no package twice and the attributes of every pool, package or sibling that comes alone are sorted without repetitions |
| TopologyStatus.StatusCanonicalIff | pkg/util/cnr_topology.go:130-194 | the status is a canonical forest if and only if this holds for every reported node |
| StatusFacts.NodeReport | pkg/util/cnr_topology.go:146-176 | capacity and allocatable are the given ones; every given attribute and consumer is reported, with the first given value and the first given quantity of each resource; exactly the given pools, packages and siblings are reported |
| TidePool.SettersMeaning | pkg/controller/tide/nodepool_wrapper.go:82-163 | each setter gives the role it is named after, the offline reserve role exactly if no online label is left, and leaves foreign labels alone; a demoted reserve keeps serving as before |
| TidePool.SelectionUnchanged | pkg/controller/tide/nodepool_wrapper.go:78-163 | writing role labels does not change which nodes are selected |
| TidePool.OfflineRoleIffOneTypeKey | pkg/controller/tide/nodepool_wrapper.go:82-144 | setting the offline reserve role always takes effect if and only if online and offline are values of one key |
| TidePool.OfflineRoleSticksIff | pkg/controller/tide/nodepool_wrapper.go:82-144 | for every pool, colliding keys included: the offline role takes effect on all nodes if and only if it does on a node without labels and the setter also decides the online key |
| TidePool.DefaultLabels | pkg/controller/tide/nodepool_wrapper.go:120-219 | the labels each setter writes and the taints of a pool that configures none, written out |
| TidePool.DefaultRoles | pkg/controller/tide/tide.go:465-487 | the role of a node by the labels of such a pool, written out |
| Scaling.SharesFit | pkg/controller/tide/tide.go:356-365 | a share rounded up and the complementary share rounded down fit into the total |
| Scaling.SharesRounded | pkg/controller/tide/tide.go:356-365 | a share rounded up is the least number not below the exact value, one rounded down the greatest not above it |
| TideReconcile.Cluster.ClassifyNodes | pkg/controller/tide/tide.go:465-487 | the listed nodes by role, in order |
| TideReconcile.Cluster.DemoteSurplus | pkg/controller/tide/tide.go:368-385 | reserves beyond the quota become tide nodes and no other node changes; a refused write stops the loop |
| TideReconcile.Cluster.PlaceNode | pkg/controller/tide/tide.go:387-412 | an unclassified node gets the first role with room |
| TideReconcile.Cluster.PlaceUnknown | pkg/controller/tide/tide.go:387-412 | unclassified nodes fill the online reserve, then the offline reserve, then become tide nodes |
| TideReconcile.Cluster.Reconcile | pkg/controller/tide/tide.go:351-412 | the counts of all roles after a successful pass, which leaves the pool settled; success if no write is refused, no write at all in a settled pool, no change on a malformed quota, and only permitted writes even on failure |
| TideReconcile.Cluster.ReconcileAgain | pkg/controller/tide/tide.go:351-412 | a pass over a pool as a successful pass has left it succeeds and writes nothing |
| TideReconcile.SwitchKeepsTally | pkg/controller/tide/tide.go:351-412 | where no node is both reserve and tide node, a balancing switch changes no count of roles |
| TideReconcile.Cluster.ReconcileFresh | pkg/controller/tide/tide.go:351-412 | a pass over a pool whose selected nodes are all new, with percentages of at most 100 in all, ends with the least number of online reserves not below their share, the greatest number of offline reserves not above theirs, and the rest tide nodes |
| TideReconcile.Cluster.ReconcileCounts | pkg/controller/tide/tide.go:351-412 | a pass with plain numbers as quotas over any pool: the online reserves reach their number as far as there are nodes, then the offline ones, and the rest are tide nodes; over `n` new nodes and quotas `a` and `b`, `min(a, n)` online and `min(b, n - min(a, n))` offline reserves |
| TideReconcile.FreshTally | pkg/controller/tide/tide.go:465-487 | the new nodes of a listing are all counted as unclassified |
| TideReconcile.ReconciledMeaning | pkg/controller/tide/tide.go:351-412 | a pass leaves no node unclassified, keeps both reserves within their quotas, loses no pool node, and is a fixed point |
| TideReconcile.ReconciledCounts | pkg/controller/tide/tide.go:368-412 | the counts of all roles after a pass, from the counts before and the quotas |
| TideReconcile.FreshPoolMeetsQuotas | pkg/controller/tide/tide.go:356-412 | the quotas computed from percentages of at most 100 in all are met exactly by new nodes, and the rest become tide nodes |
| TideRuns.OwnerChanges | pkg/controller/tide/tide.go:291-412 | a pool label changes only from absent to the reconciling pool or from the deleted pool to absent, and no pool writes another pool's node |
| TideRuns.OwnedUntilDeleted | pkg/controller/tide/tide.go:291-412 | over every interleaving, a claimed node stays with its pool and only that pool writes to it until the pool is deleted |
| TideRuns.CleanedMeaning | pkg/controller/tide/tide.go:308-332 | cleaning removes exactly the pool's taints and labels and makes the node unclassified for every pool |
| TideRuns.OnlineTideSurvives | pkg/controller/tide/tide.go:334-673 | over every run, a pool that has an online tide node always has one |
| TideRuns.AnotherOnlineKept | pkg/controller/tide/tide.go:599-628 | no permitted write of another pool and none of the pool's own quota pass takes away the other online tide node that a release relies on |
| TideRuns.RolesStayApart | pkg/controller/tide/tide.go:334-673 | over every run, no node becomes both reserve and tide node of a pool |
| TideRelease.RemoveAt | pkg/controller/tide/tide.go:316-322 | removing the found positions from the back leaves exactly the foreign taints, in order |
| TideRelease.CleanNode | pkg/controller/tide/tide.go:308-332 | the node without the pool's taints and labels |
| TideRelease.ReconcileDelete | pkg/controller/tide/tide.go:291-306 | all nodes of the pool are cleaned, in any order; a refused write leaves some of them, and nothing else changes |
| TideRelease.ReleasedMeaning | pkg/controller/tide/tide.go:291-332 | afterwards the pool has no nodes and no other node changed |
| TideBalance.SwitchTaints | pkg/controller/tide/tide.go:631-669 | the pool's taints of a node are rewritten in place, or one is added |
| TideBalance.ChangeNodeToOnline | pkg/controller/tide/tide.go:631-651 | the node switched to online work |
| TideBalance.ChangeNodeToOffline | pkg/controller/tide/tide.go:653-673 | the node switched to offline work |
| TideBalance.SwitchMeaning | pkg/controller/tide/tide.go:631-673 | a switch sets the role it is named after and touches nothing the pool does not own; exactly when switching back restores the labels |
| TideBalance.OfflineSwitchRepelsOnline | pkg/controller/tide/tide.go:653-673 | the node gets the taint against online pods if and only if it had one of the pool's taints or both taints share a key |
| TideBalance.OnlineSwitchRepelsOffline | pkg/controller/tide/tide.go:631-651 | the node gets the taint against offline pods if and only if it had one of the pool's taints or both taints share value and effect |
| TideBalance.TryNode | pkg/controller/tide/tide.go:560-584 | a successful trial puts the node online, a failed one is rolled back |
| TideBalance.TryOffline | pkg/controller/tide/tide.go:557-594 | the first offline node whose trial succeeds is chosen; every other trial leaves labels and foreign taints as they were |
| TideBalance.ReleaseOffline | pkg/controller/tide/tide.go:540-598 | at most one offline tide node is handed over, exactly when some pending pod fits nowhere and a trial helps it, and it is that trial's node |
| TideBalance.ReleaseOnline | pkg/controller/tide/tide.go:599-628 | the first online tide node is released if and only if another one stays and all its online pods fit elsewhere; otherwise nothing is written |
| TideBalance.RunOnce | pkg/controller/tide/tide.go:527-629 | whatever the scheduler answers, exactly the node the answers call for is written and changes sides, and nothing if they call for none: a helper for a pending pod, else the least used online node whose pods all fit, and nothing if pods are pending without an offline node |
| TideBalance.DecisionMeaning | pkg/controller/tide/tide.go:538-618 | which node the answers call for, question by question: the first offline node that helps the first pending pod that fits nowhere and is helped at all; without one the first of two or more online nodes if every later answer about its pods is positive |
| TideBalance.ReservesUntouched | pkg/controller/tide/tide.go:527-629 | a round changes no node of another pool, none that is not a tide node, and no reserve node |
| EvictionObservations.ThresholdsFirstObservedAt | pkg/agent/evictionmanager/manager.go:765-783 | met thresholds keep the time of their first observation |
| EvictionObservations.ThresholdsMetGracePeriod | pkg/agent/evictionmanager/manager.go:821-838 | the thresholds older than their grace period |
| EvictionObservations.ConditionsLastObservedAt | pkg/agent/evictionmanager/manager.go:786-805 | seen conditions get the current time, the others keep theirs |
| EvictionObservations.ConditionsObservedSince | pkg/agent/evictionmanager/manager.go:808-818 | the conditions younger than the period |
| EvictionObservations.ThresholdStamps | pkg/agent/evictionmanager/manager.go:765-783 | over every run, the stored thresholds are those met at the latest sync, stamped with the first sync of their unbroken streak |
| EvictionObservations.AskedIffMetForGrace | pkg/agent/evictionmanager/manager.go:393-448 | with a monotone clock a plugin is asked for pods if and only if its threshold was met at every sync of a window at least as long as the grace period, in seconds |
| EvictionObservations.ConditionStamps | pkg/agent/evictionmanager/manager.go:786-805 | every condition ever seen is stored with its latest sight |
| EvictionObservations.ReportedIffRecent | pkg/agent/evictionmanager/manager.go:786-818 | a condition is reported if and only if its latest sight is younger than the transition period, with that sight's content |
| EvictionObservations.RecentSightReported | pkg/agent/evictionmanager/manager.go:786-818 | with a monotone clock any sight within the period keeps a condition reported |
| EvictionTaints.TaintKeyInjective | pkg/agent/evictionmanager/conditions.go:59-61 | different conditions have different taint keys |
| EvictionTaints.EffectTaints | pkg/agent/evictionmanager/conditions.go:84-101 | the valid effects of one condition, each once |
| EvictionTaints.GetNodeTaintsFromConditions | pkg/agent/evictionmanager/conditions.go:71-105 | exactly the asked-for taints, no key and effect twice, for every map order |
| EvictionTaints.TaintsOrderFree | pkg/agent/evictionmanager/conditions.go:71-105 | two map orders give the same taints up to order |
| EvictionTaints.TaintedIffRecentlySeen | pkg/agent/evictionmanager/conditions.go:71-105 | over every run, the node has a taint if and only if the latest sight of a node condition is recent and asks for it with one of the effects NoSchedule, PreferNoSchedule and NoExecute |
| EvictionCollector.IsNameEnabled | pkg/util/general/common.go:132-157 | the first mention of a name decides, otherwise a star unless the name is disabled by default |
| EvictionCollector.Collector.constructor | pkg/agent/evictionmanager/eviction_resp_collector.go:54-68 | an empty collector |
| EvictionCollector.Collector.FileRequest | pkg/agent/evictionmanager/eviction_resp_collector.go:108-123 | a request is filed under its pod with a fresh copy of the options |
| EvictionCollector.Collector.CollectEvictPods | pkg/agent/evictionmanager/eviction_resp_collector.go:86-133 | every well-formed request of a plugin outside dry run is filed, the last one per pod wins; a dry-run plugin changes nothing |
| EvictionCollector.Collector.CollectMetThreshold | pkg/agent/evictionmanager/eviction_resp_collector.go:135-171 | met thresholds and their candidate pods are kept even in dry run, conditions are not |
| EvictionCollector.CandidatesMeaning | pkg/agent/evictionmanager/eviction_resp_collector.go:135-171 | of the candidate pods with one UID the last one is kept |
| EvictionCollector.Collector.CollectTopSoftEvictionPods | pkg/agent/evictionmanager/eviction_resp_collector.go:173-208 | the targets become candidates, in order |
| EvictionGrace.RaiseOptions | pkg/agent/evictionmanager/eviction_resp_collector.go:232-245 | the shared options are raised to what the pod already had; without options of the response the pod gets its own |
| EvictionGrace.ForceTopPod | pkg/agent/evictionmanager/eviction_resp_collector.go:232-258 | what forcing one pod does to the grace periods of all victims |
| EvictionGrace.CollectTopEvictionPods | pkg/agent/evictionmanager/eviction_resp_collector.go:210-259 | entries keep their options and no grace period decreases, whatever shares the options; if no victim held the response's options before, the new grace periods are exactly the maximum over the response and its pods |
| EvictionGrace.Shared | pkg/agent/evictionmanager/eviction_resp_collector.go:232-245 | the shared grace period is the least one that bounds the response's own and every listed pod's |
| EvictionManager.FilterOutForced | pkg/agent/evictionmanager/manager.go:841-853 | the soft victims that are not forced |
| EvictionManager.GetEvictPodFromCandidates | pkg/agent/evictionmanager/manager.go:690-708 | an eligible candidate that no eligible one comes after, or none if none is eligible |
| EvictionManager.DoEvict | pkg/agent/evictionmanager/manager.go:536-566 | the list has every valid forced pod and the promoted candidate, each pod once, for every map order |
| EvictionManager.CollectAnswers | pkg/agent/evictionmanager/manager.go:393-432 | for every order of the plugins, the collector holds exactly what plugins outside dry run asked for |
| EvictionManager.FileTop | pkg/agent/evictionmanager/manager.go:477-508 | the targets of a plugin outside dry run are filed by force if and only if its threshold is a hard one, otherwise as candidates |
| EvictionManager.AskTop | pkg/agent/evictionmanager/manager.go:453-510 | every due plugin is asked, its pods are filed, by force exactly for a hard threshold, and no grace period decreases over the whole phase |
| EvictionManager.Manager.CollectEvictionResult | pkg/agent/evictionmanager/manager.go:393-513 | the manager's state is that of the history of syncs; reported conditions and asked plugins are exactly those the history and the answers call for; a UID is filed by force if and only if a plugin outside dry run requested it so or targeted it with a hard threshold, and as a candidate if and only if one asked for it otherwise |
| EvictionManager.Manager.SyncOnce | pkg/agent/evictionmanager/manager.go:354-391 | the history grows by the thresholds and conditions of this sync's answers and the reported conditions follow from it; exactly the valid forced victims and the promoted candidate go to the killer, each pod once; a pod asked for by force is evicted if every pod of its UID asked for so is valid; a candidate is promoted unless none is eligible, no eligible one comes after it, and it does not ask for notification |
| EvictionManager.KillList | pkg/agent/evictionmanager/manager.go:536-566 | the same about the collector's maps, for every content they can have |
| EvictionManager.KillListExact | pkg/agent/evictionmanager/manager.go:536-566 | whom the list has and who is promoted, victim by victim |
| SpdBaseline.CmpTotalOrder | pkg/util/spd_baseline.go:68-92 | the comparison is a total order that is zero exactly on equal pods |
| SpdBaseline.CmpMeaning | pkg/util/spd_baseline.go:77-92 | the pod created earlier comes first, and among equally old ones the smaller name |
| SpdBaseline.GetSPDPodMetaList | pkg/controller/spd/spd_baseline.go:76-104 | exactly the active pods, no older one after a younger one |
| SpdBaseline.BaselineIndexBounds | pkg/controller/spd/spd_baseline.go:108-122 | the sentinel's position is in the list, and not its end if there are two or more pods |
| SpdBaseline.BaselineByPosition | pkg/util/spd_baseline.go:103-126 | among distinct pods the baseline pods are those up to position `(n - 1) * p / 100` |
| SpdBaseline.BaselineIffFewOlder | pkg/controller/spd/spd_baseline.go:99-122 | of any `n` active pods, a pod is baseline if and only if at most `(n - 1) * p / 100` of them are older |
| SpdBaseline.DecideBaseline | pkg/util/spd_baseline.go:103-126 | the whole test: no pod without a percentage or at zero and below, every pod from a hundred on, an error without active pods, and otherwise that number of older pods |
| SpdBaseline.BaselineCount | pkg/controller/spd/spd_baseline.go:99-122 | exactly `(n - 1) * p / 100 + 1` of `n` distinct pods are baseline: at least one, and not all of two or more |
| SpdBaseline.BaselineGrowsWithPercent | pkg/controller/spd/spd_baseline.go:108-122 | raising the percentage drops no baseline pod |
| SpdBaseline.BaselineGrowsWithLaterPods | pkg/controller/spd/spd_baseline.go:99-122 | pods that come later in the order drop no baseline pod |
| SpdBaseline.ErrorIffNoSentinel | pkg/util/spd_baseline.go:103-126 | the test fails if and only if a sentinel is needed and there is no active pod |
| SpdCache.ApplySPDTargetConfig | pkg/controller/spd/cnc.go:433-463 | the profile's first entry is replaced or one is appended, and every other entry stays in its order; a list without repetitions stays one, and only such a list does |
| SpdCache.SyncCNC | pkg/controller/spd/cnc.go:173-216 | for every list and order of the profiles a sorted list in which the first entry of every live profile is current and all other entries are kept; without repetitions it is the sorted union of old entries and live profiles; the result has repetitions if and only if the list had |
| SpdCache.SyncDetermined | pkg/controller/spd/cnc.go:173-216 | for every list the result does not depend on the order of the profiles |
| SpdCache.SecondSyncIdle | pkg/controller/spd/cnc.go:173-216 | for every list a second sync changes nothing |
| SpdCache.SyncedMeaning | pkg/controller/spd/cnc.go:197-209 | the synced list is sorted, holds every live profile with its current hash and keeps the other entries |
| SpdCache.SyncIdempotent | pkg/controller/spd/cnc.go:197-216 | the same as an equation, for a list without repetitions |
| SpdCache.ClearUnusedConfig | pkg/controller/spd/cnc.go:218-253 | only live profiles remain, none when the cache is disabled, all if the live profiles are unknown |
| SpdCache.SyncThenClear | pkg/controller/spd/cnc.go:197-253 | sync and clear leave exactly the live profiles |
| AllocationStore.Store.Insert | pkg/agent/orm/pod_resource.go:96-112 | one allocation is stored, a missing one is ignored |
| AllocationStore.Store.DeleteResourceAllocationInfo | pkg/agent/orm/pod_resource.go:114-121 | one allocation is removed, its shells stay |
| AllocationStore.Store.DeletePod | pkg/agent/orm/pod_resource.go:123-132 | a pod is removed |
| AllocationStore.Store.Delete | pkg/agent/orm/pod_resource.go:134-145 | exactly the listed pods are removed |
| AllocationStore.Store.ContainerResource | pkg/agent/orm/pod_resource.go:174-189 | the allocation of a pod, container and resource, if there is one |
| AllocationStore.InsertedLookup | pkg/agent/orm/pod_resource.go:96-112 | an insertion changes one lookup |
| AllocationStore.RemovedLookup | pkg/agent/orm/pod_resource.go:114-121 | a removal clears one lookup |
| AllocationStore.Store.ToCheckpointData | pkg/agent/orm/pod_resource.go:192-215 | for every map order, one entry for each encodable allocation and no other |
| AllocationStore.Store.FromCheckpointData | pkg/agent/orm/pod_resource.go:218-231 | the entries are inserted one by one, undecodable ones skipped |
| AllocationStore.Store.AllAllocatedResourceNames | pkg/agent/orm/pod_resource.go:233-248 | the resource names allocated anywhere |
| AllocationStore.RestoreKeepsLookups | pkg/agent/orm/pod_resource.go:192-231 | restoring a checkpoint into an empty store gives back every encodable allocation and nothing else |
| AllocationStore.RestoreLosesOnlyShells | pkg/agent/orm/pod_resource.go:192-231 | if all allocations can be encoded, the restored store is the old one without its empty shells |
| AllocationStore.RestoreKeepsNames | pkg/agent/orm/pod_resource.go:192-248 | and has the same allocated resource names |
| AllocationStore.ListsPermute | pkg/agent/orm/pod_resource.go:192-231 | any permutation of the entries is a checkpoint of the same store |
| AllocationStore.LookupsDetermine | pkg/agent/orm/pod_resource.go:192-231 | stores without shells that agree on every lookup are equal |

## Left out

- Informers, work queues, event handlers, finalizers, patch building, metrics and logging: plumbing around the modelled logic.
- Selector strings: a selector is given as parsed requirements or as a parse failure.
- Object keys are pairs of namespace and name, not strings joined by a slash; label and taint keys omit the common domain prefix, except in the taint keys of conditions.
- Nil and empty lists are one value, as the repository's own comparison treats them; nil entries of lists are modelled where the source skips them.
- Go's fixed-width counters and floating point: counts are unbounded integers and percentages exact fractions.
- Hashes and JSON encodings are parameters; decoding is assumed to invert encoding where a checkpoint is restored.
- ZonePayload.MergeResourcePools: does not show that the source assigns to fields of the first list's own entries; the model returns the merged list as a value.
- ZonePayload.MergeResourcePackages: the same, for packages.
- Taint merging of node resources (pkg/util/cnr.go, lines 464-517) and zone nodes made from machine information: single-branch facts.
- TideReconcile.Cluster.Reconcile: does not state the status lists, which the source fills from the lists it made before demoting surplus nodes.
- TidePool.SettersMeaning: does not cover pools whose tide and type labels share a key or take the key of the pool or reserve label (`Pool.KeysApart`), for which the roles do not hold. Placing, reconciling and balancing also need one key for online and offline and a selector on other keys (`Pool.WellFormed`): without the first the offline role does not stick, without the second a write changes which nodes are selected. Releasing and cleaning need none of this, and `TidePool.OfflineRoleSticksIff` covers all pools.
- The scheduler simulation and the ranking of nodes by usage: parameters of `TideBalance.RunOnce`.
- Eviction records, notification delivery, the rate-limiting kill queue, taints of the CNR kind and plugin registration: they do not change who is chosen.
- EvictionManager.GetEvictPodFromCandidates: the eviction order is any strict weak order, and among equal candidates the model picks as a stable sort would.
- SpdBaseline.CmpTotalOrder: does not model comparison by a custom key, a foreign function registered at run time.
- SpdBaseline.GetSPDPodMetaList: does not model custom keys and the errors of their processors, for the same reason.
- The other controllers and agents of the repository (QoS configuration, VPA, IHPA, lifecycle, monitors): mostly lookups.
