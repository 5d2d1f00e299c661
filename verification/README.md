# YODAW core, modelled and proved in Dafny

This project models the parts of the YODAW code core that plan, learn, govern and act, and proves what they keep over
every input, every run and every reachable state. Each module follows one source file or one component of it; code that
changes state step by step is a class or a method with loops, proved against a function or a predicate, and the lemmas
say what that function means.

To check the project: `dafny verify dfyconfig.toml` (Dafny 4.11).

## What is modelled

- **Plan graph engine** (`PlanGraph`, `PlanCycles`, `PlanTopology`, `PlanCriticalPath`, `PlanConflicts`, `PlanGroups`,
  `PlanQueue`, `PlanRecursion`, `PlanDecompose`, `PlanValidation`, `Pairs`). Cycle detection by depth-first search,
  Kahn's sort, the memoised longest chain, depth-based parallel groups and read/write conflicts, all over one dependency
  graph. Ids outside the plan are allowed and have no outgoing edges. The termination of `longest_path` and
  `compute_depth` rests on acyclicity, which `FindCriticalPath` gets from `FindCycles`; `PlanRecursion` shows that
  `compute_depth` returns on no other plan.
- **Governed improvement state machine** (`Proposals`, `Activations`, `Governance`, `GovernanceRuns`, `ApprovalGate`).
  The SQL tables are row sequences in insertion order. The `active` and `rolled_back_at` flags are shown to implement a
  stack, and the two tables to agree in every reachable state.
- **Mining, clustering and the bounded loop** (`FailureMiner`, `MiningProofs`, `Grouping`, `Clusters`,
  `ClusterProofs`, `ImprovementLoop`). Scores are exact reals.
- **Retry and failover** (`RetryLoop`, `StyleFailover`). Replies and random fractions are arbitrary functions of the
  attempt; delays are exact reals.
- **Configuration file** (`Toml`, `ConfigFile`, `ConfigRoundTrip`, `ConfigNames`, `ConfigCanonical`, `ConfigUpdate`). The
  printer against an independent reader for the part of TOML v1.0.0 it uses, with names in quotation marks, and the
  update of the `[llm]` table.
- **Gateway provisioning** (`Gateway`, `GatewayProofs`, `GatewayKeys`). The gateway is an object that lists its records
  in creation order; the ids and keys it gives, and its refusals, are inputs.
- **Desktop action runtime** (`Secrets`, `ComputerRuntime`). The backend, the planner and the verifier are inputs.
- **Request body limit** (`BodyLimit`). A handler is any sequence of receive and send calls.
- `Seqs`, `Sorting` and `Text` hold the sequence facts, Python's stable `sorted` and decimal numerals the others use.

## What the proofs found

- A step that names an in-plan dependency twice is never produced by the queue, because in-degrees count occurrences and
  are lowered once per dependent; an acyclic plan can then be returned in an order that breaks a dependency
  (`RepeatedDependencyMisorders`; the exact condition is `OrderRespectsDependenciesIff`).
- `decompose` assigns parallel groups while dependencies are still titles; the built-in feature template then groups two
  dependent steps (`GroupedBeforeResolution`). For dependencies that are ids no two steps of a group depend on each other
  (`GroupIsAntichain`); for titles `TitledGroupsAreAntichainsIff` says exactly when that still holds.
- `save` writes the status of the object it is given; saving an object read before its activation breaks the agreement of
  the tables (`StaleSaveBreaksAgreement`; the exact condition is `SaveKeepsAgreementIff`).
- `transition` trusts its `via` argument, and the transition table allows APPROVED to ROLLED_BACK: outside `activate` and
  `rollback`, every transition to ACTIVATED or ROLLED_BACK that goes through breaks the agreement (`TransitionTrustsVia`;
  the exact condition is `TransitionKeepsIff`).
- Two different lists of failure modes can have one signature when a mode holds a comma (`CommaHidesDifference`; without
  commas `SameSignatureIff`).
- A successful response whose body cannot be parsed is logged twice as the same attempt (`CallLogShape`).
- The TOML printer escapes only backslash and quotation mark: a string with a control character makes the file
  unreadable, and `write_llm_config` notices only after the file is overwritten (`UpdateWithLineFeed`).
- The TOML printer writes names without quotation marks: a file with a table `["my app"]` can be loaded, and after any
  update of `[llm]` it cannot (`UpdateOfQuotedFile`). For the tables that are written nothing else goes wrong:
  `ReadsBackIff` is the exact condition over both.
- `compute_depth` has no check for cycles: it returns exactly on acyclic plans (`DepthsReturnIff`).
- `provision_gateway_key` is not idempotent by itself: when the deletion of a rejected key fails, or another record of
  the name stands in front, the next call does not find the key it minted (`FailedDeletionPilesUp`; the exact
  condition is `SecondCallFindsKeyIff`).
- PAUSED and BLOCKED do not hold `act` back (`PausedAndBlockedSessionsAct`, `OnlyClosedHoldsBack`; the exact condition is
  `DispatchesIffAdmitted`), and FAILED is never reached (`ReachableIsConsistent`).
- A permission error raised by the second dispatch does not block the session (`SecondPermissionErrorDoesNotBlock`; the
  exact condition is `BlockedIff`).
- Approval of a HIGH risk action may come from the caller of `act` or from an entry of the request's own parameters
  (`DispatchesIffAdmitted`).
- A handler that answers before the body limit is crossed makes a second response start (`EarlyAnswerStartsTwice`;
  the exact condition is `RejectionStandsAloneIff`).

## Model

| member | source | states |
|---|---|---|
| `PlanCycles.FindCycles` | app/planning/decomposition.py:454-485 | nothing is reported exactly on acyclic plans; every reported list is a simple cycle closed by its first id; one is reported for every naming of a dependency that leads back in a depth-first search, so that every closed walk takes an edge that closes a reported cycle; for every graph, ids outside the plan and repeated ids included |
| `PlanCycles.CycleFinder.Dfs` | app/planning/decomposition.py:463-479 | the nested `dfs` ends on every graph, restores the path and finishes the node, with exactly the reports its back edges call for |
| `PlanCycles.CycleFinder.FollowAll` | app/planning/decomposition.py:469-476 | the loop over the dependencies of a step: one report for each naming of an id under way, none for the others |
| `PlanCycles.CycleFinder.Follow` | app/planning/decomposition.py:470-476 | one dependency: followed, reported, or passed by |
| `PlanCycles.CycleFinder.Enter` | app/planning/decomposition.py:464-466 | the node joins visited, stack and path together |
| `PlanCycles.CycleFinder.ReportCycle` | app/planning/decomposition.py:473-476 | a back edge yields one more report, a simple cycle cut out of the path and closed by that edge |
| `PlanCycles.CycleFinder.Leave` | app/planning/decomposition.py:478-479 | the node leaves stack and path; of its dependencies exactly those still under way have been reported |
| `PlanCycles.ClosedWalkTakesReportedEdge` | app/planning/decomposition.py:454-485 | no closed walk of the plan avoids all edges that close a reported cycle |
| `PlanCycles.NothingReportedIff` | app/planning/decomposition.py:418-425 | a search reports nothing exactly on acyclic plans |
| `PlanGraph.OrderedIsAcyclic` | app/planning/decomposition.py:540-579 | an order of all steps with dependencies first exists only for an acyclic plan |
| `PlanGraph.ReachShrinks` | app/planning/decomposition.py:514-530 | a dependency reaches strictly less than a step that is on no cycle: why `longest_path` and `compute_depth` end on acyclic plans |
| `PlanTopology.TopologicalSort` | app/planning/decomposition.py:540-579 | for every plan with unique ids the result is a permutation of the ids; its queue-produced prefix is exactly the steps that reach neither a cycle nor a step with a repeated in-plan dependency, each after its dependencies and first in, first out; the rest follow in plan order; and the whole result respects every dependency exactly when the plan lists its stuck steps that way |
| `PlanTopology.KahnResultIsDetermined` | app/planning/decomposition.py:540-579 | what the contract of the sort says leaves only one result: what is produced, in which order, and what follows |
| `PlanQueue.QueueDeterminesOrder` | app/planning/decomposition.py:551-571 | of the orders in which every id is ready when it comes, only one is first in, first out with ties in plan order |
| `PlanQueue.QueueStep` | app/planning/decomposition.py:556-571 | producing one id and queueing those that became ready by it, in plan order, keeps the order first in, first out |
| `PlanTopology.ProduceReady` | app/planning/decomposition.py:551-573 | the queue loop alone: what it produces, and in which order |
| `PlanTopology.InDegrees` | app/planning/decomposition.py:543-549 | in-degrees count every occurrence of an in-plan dependency |
| `PlanTopology.CountInPlan` | app/planning/decomposition.py:546-549 | the inner counting loop adds the number of in-plan occurrences |
| `PlanTopology.Roots` | app/planning/decomposition.py:551-553 | the initial queue holds exactly the ids with counter zero, each once |
| `PlanTopology.Relax` | app/planning/decomposition.py:556-571 | popping one id keeps the counters and the queue in step with the produced ids |
| `PlanTopology.LowerDependents` | app/planning/decomposition.py:564-571 | each dependent is lowered once and queued when it reaches zero |
| `PlanTopology.CounterReachesZero` | app/planning/decomposition.py:543-571 | a counter that grows per occurrence and falls once per dependent reaches zero exactly when every in-plan dependency is produced and none is named twice |
| `PlanTopology.OrderRespectsDependenciesIff` | app/planning/decomposition.py:540-579 | for every plan, the returned order respects all dependencies if and only if the plan already lists its stuck steps that way |
| `PlanTopology.OrderRespectsDependenciesIffAcyclic` | app/planning/decomposition.py:410-452 | without repeated dependencies the returned order respects every dependency exactly when the plan is acyclic |
| `PlanTopology.RepeatedDependencyMisorders` | app/planning/decomposition.py:543-579 | a concrete acyclic plan that is returned in a wrong order because one dependency is named twice |
| `PlanCriticalPath.FindCriticalPath` | app/planning/decomposition.py:503-538 | empty on cyclic plans; otherwise a real dependency chain ending in a step, at least as long as every such chain, and the first in plan order of those |
| `PlanCriticalPath.LongestPathFinder.LongestPath` | app/planning/decomposition.py:514-530 | the memoised recursion returns what the unmemoised definition does, and ends because the plan is acyclic |
| `PlanCriticalPath.LongestIsChain` | app/planning/decomposition.py:514-530 | the longest path is a chain of real dependency edges that ends in the step |
| `PlanCriticalPath.LongestBounds` | app/planning/decomposition.py:514-530 | no chain that ends in the step is longer |
| `PlanCriticalPath.LongestTakesFirst` | app/planning/decomposition.py:521-526 | of several longest paths the one through the dependency that is named first is taken |
| `PlanConflicts.ConflictClassIff` | app/planning/decomposition.py:614-660 | two writes are a hard conflict, a write and a read a potential one, two uses are compatible, nothing else is reported, and the shared resources are exactly those where the accesses meet |
| `PlanConflicts.ClashIsInterference` | app/planning/decomposition.py:614-660 | the classes that keep steps apart say exactly that one writes what the other touches, whichever is asked first |
| `PlanConflicts.DetectConflicts` | app/planning/decomposition.py:602-612 | the report lists the pairs with a conflict, each once, in plan order |
| `PlanConflicts.ConflictsReported` | app/planning/decomposition.py:602-612 | exactly the conflicts of some pair are in the report |
| `Pairs.ReportRow` | app/planning/decomposition.py:606-610 | the inner loop: one step against the steps after it |
| `PlanConflicts.StepsCommute` | app/planning/decomposition.py:359-376 | steps that do not interfere, each confined to its declared sets, commute on every store |
| `PlanConflicts.AnyOrderSameStore` | app/planning/decomposition.py:359-376 | a clash-free set of confined steps ends in the same store in every order |
| `PlanGroups.DepthFinder.ComputeDepth` | app/planning/decomposition.py:338-352 | the memoised depth is the length of the longest dependency chain, counted in edges |
| `PlanGroups.DepthGrows` | app/planning/decomposition.py:338-352 | depth strictly increases along every dependency edge |
| `PlanRecursion.DepthReturnsIff` | app/planning/decomposition.py:338-349 | `compute_depth`, storing depths on the way, returns for a step, under some limit on nested calls, exactly when the step reaches no cycle |
| `PlanRecursion.DepthsReturnIff` | app/planning/decomposition.py:338-352 | the depths of all steps are computed, under some limit on nested calls, exactly when the plan is acyclic |
| `PlanGroups.DepthGroups` | app/planning/decomposition.py:354-361 | parallel-safe steps are filed by depth, in plan order |
| `PlanGroups.GroupConflictFree` | app/planning/decomposition.py:363-372 | the pair loop accepts a group exactly when no two members clash |
| `PlanGroups.SettleGroup` | app/planning/decomposition.py:363-376 | a group of two or more gets its name exactly when it is conflict-free; other steps keep theirs |
| `PlanGroups.AssignParallelGroups` | app/planning/decomposition.py:326-376 | on acyclic plans every step ends with the group its level earned, or keeps what it had |
| `PlanGroups.GroupIsAntichain` | app/planning/decomposition.py:326-376 | no step of a group reaches another step of it through dependencies |
| `PlanGroups.GroupIsLevel` | app/planning/decomposition.py:359-376 | the steps with a group name are exactly the level it was made from |
| `PlanGroups.GroupRunsInAnyOrder` | app/planning/decomposition.py:359-376 | every order of a group's steps ends in the same store |
| `PlanDecompose.OutsideDepth` | app/planning/decomposition.py:269 | while dependencies are titles, depth only tells steps with dependencies from steps without |
| `PlanDecompose.OnlyNamingStepsLoseAntichain` | app/planning/decomposition.py:378-396 | however titles are resolved later, only parallel-safe steps that both name dependencies can share a group with a dependency between them |
| `PlanDecompose.NamingStepsGrouped` | app/planning/decomposition.py:354-376 | while dependencies are titles, two parallel-safe steps that name dependencies share a group exactly when no two such steps clash |
| `PlanDecompose.TitledGroupsAreAntichainsIff` | app/planning/decomposition.py:326-396 | however titles are resolved later, the groups made before are antichains of the resolved graph if and only if two parallel-safe steps that name dependencies clash, or no such step depends on another |
| `PlanDecompose.GroupedBeforeResolution` | app/planning/decomposition.py:33-79 | the feature template: two steps share a group although, once titles are ids, one depends on the other |
| `PlanValidation.FindOrphans` | app/planning/decomposition.py:487-501 | exactly the steps without dependencies and without dependents, each once, in plan order |
| `PlanValidation.CollectGroups` | app/planning/decomposition.py:428-432 | each non-empty group name with its members, in plan order |
| `PlanValidation.MembersPlaces` | app/planning/decomposition.py:428-432 | the members of a group are, in plan order, exactly the steps that carry its name |
| `PlanValidation.ValidatePlan` | app/planning/decomposition.py:410-452 | `valid` holds exactly on acyclic plans; the reported cycles are those of a depth-first search and the order is the one of Kahn's sort; it respects every dependency exactly when the plan lists its stuck steps that way, which without repeated dependencies is when it is valid; with the meaning of every other field of the report |
| `Proposals.Find` | app/improvement/store.py:267-275 | the row with the id, if there is one |
| `Proposals.FindByHash` | app/improvement/store.py:277-288 | the row with the hash; the empty hash matches nothing |
| `Proposals.CandidatesDiffer` | app/improvement/store.py:139-146 | the suffixed ids `create` tries are pairwise different |
| `Proposals.FreshId` | app/improvement/store.py:139-146 | the suffix search ends on every finite table, on the first free candidate |
| `Proposals.ProposalStore.Create` | app/improvement/store.py:95-176 | a duplicate hash changes nothing and returns the row there; otherwise exactly one draft with a fresh id is appended; ids and non-empty hashes stay unique |
| `Proposals.ProposalStore.Save` | app/improvement/store.py:178-222 | every mutable column of the row is written from the object, its status included; no other row changes |
| `Proposals.ProposalStore.Transition` | app/improvement/store.py:224-265 | the new table, or the error with the table unchanged, of every transition |
| `Proposals.AppendKeepsTable` | app/improvement/store.py:95-176 | appending a draft with fresh id and hash keeps the table's invariant |
| `Activations.Current` | app/improvement/versioning.py:197-205 | the active row with the highest version |
| `Activations.AtVersion` | app/improvement/versioning.py:207-215 | the row with the version, if there is one |
| `Activations.CurrentIsTop` | app/improvement/versioning.py:197-205 | the selected row is the top of the stack of live versions, and records the version below |
| `Activations.PushPushes` | app/improvement/versioning.py:104-129 | the transaction of `activate` pushes version n+1 and keeps the flags a stack |
| `Activations.PopPops` | app/improvement/versioning.py:146-172 | the transaction of `rollback` pops, and the version below becomes active again |
| `Activations.ActiveChain` | app/improvement/versioning.py:87-191 | the rows never rolled back are exactly the `previous_version` chain from the active row |
| `Activations.LiveMembers` | app/improvement/versioning.py:87-191 | the live versions are those of the rows not rolled back, in increasing order |
| `Governance.SubmitForReview` | app/improvement/approval.py:23-29 | the table after submission |
| `Governance.Approve` | app/improvement/approval.py:32-45 | the table after approval; refused without a reviewer |
| `Governance.Reject` | app/improvement/approval.py:48-66 | the table after rejection; refused without a reviewer or a reason |
| `ApprovalGate.SubmitAt` | app/improvement/approval.py:23-29 | submission succeeds exactly for a draft, changes its status, version and submitter, and no other row |
| `ApprovalGate.ApproveAt` | app/improvement/approval.py:32-45 | approval succeeds exactly for a proposal under review and a reviewer who is somebody, records the reviewer and the note, and changes no other row; every refusal with its error |
| `ApprovalGate.RejectAt` | app/improvement/approval.py:48-66 | rejection succeeds exactly for a proposal under review, a reviewer and a reason, records both, and changes no other row; every refusal with its error |
| `ApprovalGate.TransitionAt` | app/improvement/store.py:224-261 | any transition, for every target and `via`: which guard refuses it, and otherwise the one row it writes, along the six edges of the status graph only |
| `ApprovalGate.MovedIs` | app/improvement/store.py:245-262 | the columns a transition writes, the reason of a rejection falling back to the note and to a default |
| `Governance.ActivationStore.Activate` | app/improvement/versioning.py:87-136 | both tables and the result of `activate`, including what stays when the transition after the commit raises |
| `Governance.ActivationStore.InsertActive` | app/improvement/versioning.py:104-129 | the transaction of `activate`: old row demoted, new row with the next version |
| `Governance.ActivationStore.Rollback` | app/improvement/versioning.py:138-195 | both tables and the result of `rollback` |
| `Governance.PushedIsFound` | app/improvement/versioning.py:134-136 | `get_version` finds the row just inserted |
| `ApprovalGate.ActivateAt` | app/improvement/versioning.py:87-136 | in a governed state: refused without an approved proposal; otherwise the proposal is activated, all other rows are inactive, and the new row, numbered next, records the version that was active and is returned |
| `ApprovalGate.RollbackAt` | app/improvement/versioning.py:138-195 | in a governed state with an active row: that row is retired, the one it records is active again and returned, or a record that stands for nothing, and the owner is rolled back |
| `ApprovalGate.RollbackOfNothing` | app/improvement/versioning.py:146-153 | without an active row nothing changes |
| `GovernanceRuns.ActivateKeeps` | app/improvement/versioning.py:91-133 | in a governed state `activate` succeeds exactly on approved proposals, its transition never raises, and a refusal changes nothing |
| `GovernanceRuns.RollbackKeeps` | app/improvement/versioning.py:146-180 | in a governed state `rollback` succeeds exactly when something is active, and its transition never raises |
| `GovernanceRuns.TransitionKeeps` | app/improvement/store.py:224-261 | a transition to a status that owns no activation, whatever `via` it passes and whether it is refused or not, keeps both tables in agreement |
| `GovernanceRuns.TransitionKeepsIff` | app/improvement/store.py:224-261 | of the transitions that go through, with any `via`, exactly those to a status that owns no activation, and that name an actor when they approve or reject, keep all invariants of both tables |
| `GovernanceRuns.TransitionTrustsVia` | app/improvement/store.py:224-261 | a run from empty tables after which a call that passes the `via` of rollback goes through and breaks the agreement of the tables |
| `GovernanceRuns.EveryRunIsGoverned` | app/improvement/versioning.py:87-191 | every run of create, submit, approve, reject, evidence, activate and rollback keeps all invariants of both tables |
| `GovernanceRuns.ReachableIsGoverned` | app/improvement/versioning.py:87-191 | so every state reachable from empty tables is governed |
| `GovernanceRuns.OwnershipIsStatus` | app/improvement/models.py:43-56 | a proposal is ACTIVATED iff it owns exactly one live row, ROLLED_BACK iff exactly one rolled-back row, and otherwise owns none; its version is fixed by its status |
| `GovernanceRuns.HistoryIsRetained` | app/improvement/versioning.py:217-226 | no activation row is removed or rewritten over any run, and versions are never reused |
| `GovernanceRuns.ApplyMovesStack` | app/improvement/versioning.py:87-191 | one operation moves the stack of live versions by one push, one pop, or not at all |
| `GovernanceRuns.BalancedRestoresCurrent` | app/improvement/versioning.py:87-191 | every run whose activations and rollbacks match like brackets gives back the same current record |
| `GovernanceRuns.SaveKeepsAgreementIff` | app/improvement/store.py:178-218 | saving any object over its row keeps the tables in agreement exactly when its status equals the row's, or neither of the two owns an activation |
| `GovernanceRuns.SaveKeepsTableIff` | app/improvement/store.py:178-218 | saving any object over its row keeps the invariant of the proposal table exactly when its version is that of its status, a decision names its reviewer, and no other row has its hash |
| `GovernanceRuns.StaleSaveBreaksAgreement` | app/improvement/store.py:178-218 | a run from empty tables after which saving the object read before its activation breaks the agreement of the tables |
| `FailureMiner.SanitizeResults` | app/learning/failure_miner.py:84-111 | clean and quarantined results: poisoned ones and those that contradict the first clean result of their case are quarantined |
| `MiningProofs.ReasonsAre` | app/learning/failure_miner.py:65-86 | each reason of quarantine is given exactly when it applies, and there is one exactly for tampered results |
| `MiningProofs.CleanPlaces` | app/learning/failure_miner.py:84-111 | the clean results are, in order, those that are not poisoned and have the class of the first such result of their case |
| `MiningProofs.QuarantinedPlaces` | app/learning/failure_miner.py:84-111 | every other result gives one entry of the quarantine, in order, with its reasons or for the conflict |
| `FailureMiner.CleanCasesAgree` | app/learning/failure_miner.py:84-111 | clean results of one case have one class |
| `FailureMiner.MineFailures` | app/learning/failure_miner.py:114-152 | the signals, and everything quarantined, in order |
| `MiningProofs.MinedPlaces` | app/learning/failure_miner.py:126-150 | the signals are, in order, those of the clean results of the six failure classes, with their case, class, score and keys, and each mode once, sorted |
| `MiningProofs.UnknownPlaces` | app/learning/failure_miner.py:126-137 | the clean results of a class nobody knows are quarantined, in order |
| `FailureMiner.MiningAccounts` | app/learning/failure_miner.py:84-152 | every result is mined, quarantined or skipped exactly once: the case ids of the three lists are, as a multiset, those of the results |
| `FailureMiner.SameSignatureSameClass` | app/learning/failure_miner.py:44-48 | mined signals with one signature have one class |
| `MiningProofs.SameSignatureIff` | app/learning/failure_miner.py:44-48 | mined signals whose modes hold no comma have one signature exactly when they have one class and the same modes |
| `MiningProofs.CommaHidesDifference` | app/learning/failure_miner.py:44-48 | two different lists of modes with one signature, because of a comma |
| `Grouping.GroupBy` | app/learning/clusters.py:50-52 | the insertion-ordered dict: keys in order of first appearance, each with exactly its members in order |
| `Clusters.ClusterSignals` | app/learning/clusters.py:40-79 | the sorted clusters and the sorted ignored signals |
| `ClusterProofs.ClusteringKeepsCases` | app/learning/clusters.py:50-79 | the case ids of all clusters and of the ignored signals are, as a multiset, those of the signals |
| `ClusterProofs.ClustersDescribe` | app/learning/clusters.py:60-76 | size, case ids, failure modes, mean score and class of a cluster are those of the signals with its signature |
| `ClusterProofs.MembersPlaces` | app/learning/clusters.py:50-52 | the members of a group are the signals with its key, in order |
| `ClusterProofs.MeanTimesSize` | app/learning/clusters.py:62 | the average score times the size is the total |
| `ClusterProofs.ClustersInOrder` | app/learning/clusters.py:78-79 | clusters come largest first and then by signature, ignored signals by case id |
| `ClusterProofs.ClusteredIffRecurring` | app/learning/clusters.py:57-60 | a signal is clustered iff at least two signals, and at least the minimum, share its signature; otherwise it is ignored |
| `ClusterProofs.ClusteringIgnoresOrder` | app/learning/clusters.py:40-79 | every permutation of mined signals gives the same list of clusters |
| `ImprovementLoop.SelfImprovingLoop.Propose` | app/improvement/loop.py:156-226 | one candidate: suppressed exactly when its hash is there; otherwise one row with the kind, body and hash of the candidate, submitted by the loop, with the evidence the scores hold for it and the status its checks earned |
| `ImprovementLoop.SelfImprovingLoop.Settle` | app/improvement/loop.py:199-239 | a new draft ends with the evidence the scores hold for it; it is submitted unless its stored evidence fails a check |
| `ImprovementLoop.SettledIs` | app/improvement/loop.py:199-239 | evidence and status of a settled row, check by check: which scores it holds, and that it waits for review exactly when no check it came to failed |
| `ImprovementLoop.OutcomesAre` | app/improvement/loop.py:188-236 | each counter of new proposals is the number of new rows that came to that, read off their stored evidence |
| `ImprovementLoop.SelfImprovingLoop.ValidateProposal` | app/improvement/validation.py:45-73 | the stored evidence, and the verdict: cases were run, the score rose, and there is a validation plan |
| `ImprovementLoop.SelfImprovingLoop.CheckRegression` | app/improvement/validation.py:76-100 | the stored evidence, and the verdict: the check passed, with no more failures than before |
| `ImprovementLoop.SelfImprovingLoop.ProposeAll` | app/improvement/loop.py:145-226 | one cluster: every candidate created or suppressed, a cluster without candidates counted as refused |
| `ImprovementLoop.SelfImprovingLoop.ProposeClusters` | app/improvement/loop.py:145-226 | the loop over the clusters, with all counters |
| `ImprovementLoop.SelfImprovingLoop.RunIteration` | app/improvement/loop.py:102-237 | the table grows by one row, in order, for each candidate of the clusters whose hash is new, made from that candidate and settled by its checks; every counter and the stop reason follow; no activation changes; afterwards these results propose nothing new |
| `ImprovementLoop.SelfImprovingLoop.MadeIsProposed` | app/improvement/loop.py:156-186 | after the rows are made every candidate's hash is in the table, and if all were there before, none is made |
| `ImprovementLoop.SelfImprovingLoop.RunBatches` | app/improvement/loop.py:258-284 | the bounded loop stops at the first iteration that says so |
| `ImprovementLoop.SelfImprovingLoop.Run` | app/improvement/loop.py:243-288 | at most `max_iterations` iterations, accounting for every row of the table; a batch seen before creates nothing and stops |
| `ImprovementLoop.SecondIdenticalBatchIsLast` | app/improvement/loop.py:255-284 | a run is over, at the latest, with the second of two identical batches |
| `RetryLoop.ChatWithRetry` | app/llm/provider.py:577-669 | for every sequence of replies: at most max_retries+1 attempts, every one before the last failed retryably; the whole log and the time slept |
| `RetryLoop.LogAttempt` | app/llm/provider.py:583-649 | the records of one attempt, route change first |
| `RetryLoop.CallLogShape` | app/llm/provider.py:577-669 | failed attempts 1 to n-1 in order and the last one, one backoff between neighbours, and route changes from neighbour to neighbour down the chain; a success with an unreadable body is recorded twice |
| `RetryLoop.AttemptsAndBackoffsAlternate` | app/llm/provider.py:577-669 | without its route changes the log is attempt, backoff, attempt and so on, in order, up to the last attempt |
| `RetryLoop.EveryChangeIsAnnounced` | app/llm/provider.py:583-600 | every route change stands right before the attempt on the route it names |
| `RetryLoop.TotalSleepBound` | app/llm/provider.py:150-156 | a call never sleeps longer than base * (2^max_retries - 1) in all |
| `RetryLoop.DelayIs` | app/llm/provider.py:150-156 | a delay is a random part of the base, doubled for each attempt before; none for a base of zero |
| `RetryLoop.RetryableIff` | app/llm/provider.py:119-147 | which failures are worth another attempt |
| `RetryLoop.FallbackModels` | app/llm/provider.py:241-260 | each named model once, where it is named first |
| `RetryLoop.NamedPlaces` | app/llm/provider.py:241-260 | the named models are the stripped parts where something is left, in order |
| `RetryLoop.BuildChain` | app/llm/provider.py:809-817 | the primary, then each fallback once |
| `StyleFailover.FallbackStyles` | app/llm/provider.py:220-238 | the supported labels, each once, where named first |
| `StyleFailover.KnownPlaces` | app/llm/provider.py:220-238 | the known styles are the supported labels, in order |
| `StyleFailover.Chat` | app/llm/provider.py:494-529 | the styles are asked in order until one does not fail; one hop record for each failure before that; the call fails only when every style has failed |
| `StyleFailover.HopsVisitOnce` | app/llm/provider.py:500-527 | the hops form one walk down the chain that never returns to a style, each with the first 300 characters of what the style it leaves failed with |
| `StyleFailover.ChainMembers` | app/llm/provider.py:500-503 | the styles asked are the primary and the supported ones among the labels |
| `ConfigFile.DumpToml` | app/product_config.py:689-716 | the document of a configuration, section by section |
| `ConfigFile.AppendSection` | app/product_config.py:699-715 | the lines of one section; nothing for a value outside a table or an empty unknown table |
| `ConfigFile.AppendSections` | app/product_config.py:697-715 | each section is written once, when it comes up first |
| `ConfigFile.KeyOrderCovers` | app/product_config.py:704-709 | the written key order lists every key of the table exactly once |
| `ConfigFile.KeyOrderIs` | app/product_config.py:704-709 | the known keys of [llm] come first in their own order, all others alphabetically |
| `ConfigFile.SectionsAre` | app/product_config.py:697 | the known sections, then all in alphabetical order |
| `ConfigFile.KeptIff` | app/product_config.py:701-711 | a table is written exactly when it has a key or is one of the three known sections |
| `ConfigFile.BlocksAreInTurn` | app/product_config.py:697-715 | every section is written at its first turn |
| `ConfigRoundTrip.ReadEscaped` | app/product_config.py:685-686 | escaping undoes in a reader of basic strings, whatever follows |
| `ConfigRoundTrip.ReadValueText` | app/product_config.py:678-686 | a printed value reads back as the same value |
| `ConfigRoundTrip.ReadKeyLine` | app/product_config.py:713-714 | a printed line assigns its value, or stops every reader when the string holds a control character |
| `ConfigRoundTrip.ReadBlock` | app/product_config.py:712-715 | a printed section reads back as the same table |
| `ConfigNames.UnquotingStopsAtValue` | app/product_config.py:712-714 | a key that opens a quotation mark is closed, at the latest, by the first one of its value, and loses one on the way |
| `ConfigNames.OnlyBareNamesReadBack` | app/product_config.py:712-714 | a configuration that reads back as it was has bare names only, although the reader accepts names in quotation marks and a name may hold any characters |
| `ConfigCanonical.ReadsBackIff` | app/product_config.py:678-716 | for every configuration of string, integer and boolean tables, reading the printed document gives the same tables if and only if all written names are bare and no written string holds a control character other than tab |
| `ConfigUpdate.WriteLlmConfig` | app/product_config.py:719-775 | for files the modelled reader accepts: which error, or which text, an update ends with; the text is accepted exactly when it is readable, and reads back as the updated tables exactly under bare names and without control characters |
| `ConfigUpdate.LineFeedIsUnprintable` | app/product_config.py:678-686 | whatever the file holds, a line feed in the model name makes the new text unreadable |
| `ConfigUpdate.UpdateWithLineFeed` | app/product_config.py:763-775 | an update that finds a readable file and leaves an unreadable one |
| `ConfigUpdate.TwoWordsAreUnreadable` | app/product_config.py:697-715 | a configuration with a table whose name has a blank between two words is written to a file that cannot be read |
| `ConfigUpdate.UpdateOfQuotedFile` | app/product_config.py:763-775 | files with such a name in quotation marks are readable, and unreadable after every update |
| `ConfigUpdate.OnlyGivenKeysChange` | app/product_config.py:763-766 | only the given llm keys change; of other sections only those never written are lost |
| `ConfigCanonical.TextIsCanonical` | app/product_config.py:689-716 | the text depends only on what is written, so reading a file and writing it again changes nothing |
| `ConfigUpdate.SameUpdateSameFile` | app/product_config.py:763-771 | the same update again writes the same file |
| `Gateway.Gateway.EnsureProviderNode` | app/llm/ninerouter.py:1315-1349 | the node tables and the result: the first node with the prefix, a conflict, or one new node |
| `Gateway.Gateway.EnsureProviderConnection` | app/llm/ninerouter.py:1385-1427 | the connection tables and the result, by node for local credentials and by node and name for others |
| `GatewayProofs.EnsureNodeIs` | app/llm/ninerouter.py:1328-1349 | the first node with the prefix is taken if its URL agrees up to trailing slashes, and is a conflict otherwise; without one, one node is created |
| `GatewayProofs.EnsureConnectionIs` | app/llm/ninerouter.py:1404-1427 | the first active connection of the node is taken, for credentials of their own the first of that name; without one, one is created |
| `Gateway.Gateway.RegisterServers` | app/llm/ninerouter.py:1614-1657 | the server loop over every list, with everything that is left behind when it raises |
| `GatewayProofs.RegisterServerIs` | app/llm/ninerouter.py:1617-1657 | one entry of the server loop: the default name, the default credential, and what is reported |
| `GatewayProofs.SecondRunCreatesNothing` | app/llm/ninerouter.py:1614-1657 | repeating a successful loop creates nothing and returns the same ids, from any starting state and whatever was appended in between |
| `GatewayProofs.RunKeepsNoDuplicates` | app/llm/ninerouter.py:1326-1330 | no run, successful or not, leaves two nodes with a prefix or two active connections of one node with a name |
| `GatewayProofs.SucceedsIff` | app/llm/ninerouter.py:1331-1339 | a run that is not refused succeeds exactly when every entry is complete and no prefix has to stand for two URLs |
| `GatewayKeys.KeyTable.ProvisionGatewayKey` | app/llm/ninerouter.py:1191-1269 | the key table and the result of one call |
| `GatewayKeys.KeyTable.Delete` | app/llm/ninerouter.py:1093-1101 | deleting removes exactly the record with the id |
| `GatewayKeys.DeletionKeepsOthers` | app/llm/ninerouter.py:1093-1101 | all records without the id are left, each where it stood among the others |
| `GatewayKeys.ProvisioningIs` | app/llm/ninerouter.py:1191-1269 | the persisted key first, then the first usable record of the name, both unchanged; a rejected record alone is deleted, and at most one key is minted |
| `GatewayKeys.SecondCallFindsKeyIff` | app/llm/ninerouter.py:1224-1269 | without a persisted key, a call succeeds and the next one finds the same key exactly when the key found by name is accepted, or an accepted one can be minted and no other record of the name is left in front of it |
| `GatewayKeys.FailedDeletionPilesUp` | app/llm/ninerouter.py:1246-1261 | while a rejected record cannot be deleted, every call mints one more key |
| `Secrets.CollectSecrets` | app/computer/runtime.py:437-451 | the worklist ends on every nested value and collects, as a multiset, the non-empty plaintexts of all secrets in it |
| `Secrets.CollectedIff` | app/computer/runtime.py:437-451 | a plaintext is collected exactly when it stands in a secret at some place |
| `Secrets.PlacesAre` | app/computer/runtime.py:437-451 | the set of places of a plaintext is exactly where a secret with it stands |
| `Secrets.CollectedOncePerPlace` | app/computer/runtime.py:437-451 | a plaintext is collected exactly as often as there are places where it stands in a secret |
| `Secrets.SanitizeAt` | app/computer/secrets.py:42-51 | sanitizing keeps the shape: at every place stands what stood there, or a secret's descriptor |
| `Secrets.NoSecretLeft` | app/computer/secrets.py:42-51 | no secret is left in a sanitized value |
| `Secrets.UnchangedIffSecretFree` | app/computer/secrets.py:42-51 | a value is unchanged exactly when it holds no secret |
| `ComputerRuntime.Runtime.Act` | app/computer/runtime.py:179-370 | the session, the dispatches and the result of one `act`, for every outcome of geometry, plan, backend and verification |
| `ComputerRuntime.GatesAnswer` | app/computer/runtime.py:193-241 | each gate, in order, with its own answer and the session left alone |
| `ComputerRuntime.LastDispatchDecides` | app/computer/runtime.py:241-370 | past the gates: how many dispatches are made, that the last one decides, that the result is Done exactly when the history grew, with the dispatches as attempts and the verdict on the last, and which error class each reply ends in |
| `ComputerRuntime.Runtime.Touch` | app/computer/session.py:36-41 | the action becomes last in the history, and READY becomes ACTIVE |
| `ComputerRuntime.Runtime.MapBackendFailure` | app/computer/runtime.py:717-752 | the error class of a failed result; a missing permission blocks the session |
| `ComputerRuntime.Runtime.Pause` | app/computer/runtime.py:393-395 | only ACTIVE becomes PAUSED |
| `ComputerRuntime.Runtime.Resume` | app/computer/runtime.py:397-399 | only PAUSED becomes ACTIVE |
| `ComputerRuntime.ReachableIsConsistent` | app/computer/runtime.py:193-402 | in every reachable state READY means an empty history, the last action is the last history entry, everything in the history was dispatched, and FAILED is never reached |
| `ComputerRuntime.ClosedIsFinal` | app/computer/runtime.py:193-203 | after closing nothing changes and nothing is dispatched |
| `ComputerRuntime.BlockedUntilClosed` | app/computer/runtime.py:680-690 | a blocked session stays blocked until it is closed |
| `ComputerRuntime.DispatchesAreBounded` | app/computer/runtime.py:241-322 | over any run: at most two dispatches for an act, one for HIGH risk, none in a dry run or for a HIGH risk request approved neither by the caller nor in its own parameters; history and dispatches only grow |
| `ComputerRuntime.DispatchesIffAdmitted` | app/computer/runtime.py:193-241 | an act reaches the backend exactly when it passes the gates, and of all statuses only CLOSED closes one |
| `ComputerRuntime.RecordedIff` | app/computer/runtime.py:179-370 | an act enters the history, once, exactly when it is admitted and each of its one or two dispatches goes well |
| `ComputerRuntime.BlockedIff` | app/computer/runtime.py:241-322 | an act blocks the session exactly when its last dispatch lacks permission, except when the second dispatch raises it instead of returning it |
| `ComputerRuntime.SecondPermissionErrorDoesNotBlock` | app/computer/runtime.py:312-317 | a click whose second dispatch raises a permission error leaves the session READY |
| `ComputerRuntime.PausedAndBlockedSessionsAct` | app/computer/runtime.py:193-203 | an act in a paused or blocked session is dispatched, verified and recorded |
| `ComputerRuntime.PausedAndBlockedAreReached` | app/computer/runtime.py:393-395 | such sessions are reached from a fresh one |
| `ComputerRuntime.Runtime.Close` | app/computer/runtime.py:401-402 | the session is CLOSED |
| `ComputerRuntime.OnlyClosedHoldsBack` | app/computer/runtime.py:193-203 | PAUSED and BLOCKED do not hold an act back: over any run, sessions that differ only in a status other than CLOSED dispatch and record the same |
| `ComputerRuntime.LastPauseCounts` | app/computer/runtime.py:393-399 | of any sequence of pauses and resumes only the last one counts, and none of them outside ACTIVE and PAUSED |
| `BodyLimit.Middleware.Call` | app/main.py:427-474 | counters, what the handler is given and what goes out, for every handler |
| `BodyLimit.Middleware.LimitedReceive` | app/main.py:440-457 | one message, counted, and replaced by the empty final chunk over the limit |
| `BodyLimit.Middleware.GuardedSend` | app/main.py:459-468 | passed on, or answered once with the rejection |
| `BodyLimit.Middleware.Reject` | app/main.py:476-490 | one complete 413 response |
| `BodyLimit.RejectionIs` | app/main.py:476-490 | status 413 and the JSON text of the error in one final body |
| `BodyLimit.ForwardedIsBounded` | app/main.py:440-457 | the handler is never given more than `max_bytes` bytes |
| `BodyLimit.TransparentIff` | app/main.py:427-474 | the handler is given what arrived exactly when that is within the limit, and then its messages pass unchanged |
| `BodyLimit.RejectedOnce` | app/main.py:427-474 | for every handler: a declared size over the limit is refused before anything is read; otherwise from the crossing chunk on the handler sees only empty final chunks, and what goes out is what it had sent before and one complete 413, missing only when the handler raises without sending more |
| `BodyLimit.RejectionStandsAloneIff` | app/main.py:459-474 | the 413 is the only response exactly when the handler had sent nothing before the limit was crossed |
| `BodyLimit.EarlyAnswerStartsTwice` | app/main.py:459-474 | a handler that answers before the limit is crossed makes two responses start |

## Left out

- Title-to-id matching in `_compute_dependencies`, template choice, risk summaries and the reason texts of conflicts: heuristics and wording.
- PlanGroups.AssignParallelGroups: is stated for acyclic plans, the only ones for which `compute_depth` returns (`DepthsReturnIff`).
- PlanTopology.TopologicalSort: is stated for plans with unique step ids, as `decompose` numbers them.
- PlanValidation.ValidatePlan: likewise for unique step ids; the error and warning texts are left out.
- Timestamps, uuids and SHA-1: hashes and base ids are inputs, known only to be deterministic; created order is insertion order.
- Concurrent callers of the two stores, and a crash between the table commit and the proposal transition.
- The limits and status filters of `list` and `history`, and the audit events of the loop.
- Contents of `generate_candidates`: a fixed function. The reason texts of `validate_proposal` and `check_regression`: only whether there are any is modelled.
- Clusters.ClusterSignals: does not model the cluster id, a hash prefix of the signature.
- ImprovementLoop.SelfImprovingLoop.RunIteration: starts from governed tables, which every run of the store operations reaches and keeps, and from content hashes that are not empty, as `content_hash_for` yields.
- `str.strip` and `str.lower` are modelled for ASCII characters.
- Rounding of scores and delays, and durations in log records.
- Parsing of replies and streams, and what `normalize_style` and the environment variables yield: labels and parts are inputs.
- ConfigCanonical.ReadsBackIff: covers tables of string, integer and boolean values; floats, arrays and nested tables are printed by `str` and are not modelled.
- Toml.Read: no `\u` escapes, literal or multi-line strings, dotted or literally quoted keys, dates, or carriage returns at line ends; the printer writes none of them.
- ConfigUpdate.WriteLlmConfig: covers files `Toml.Read` accepts, and calls others bad; it does not model the template that is written first when the file is missing, nor the checks of `load_product_config` beyond reading the file.
- GatewayProofs.SucceedsIff: is stated for a gateway that refuses no creation; what a refusal leaves behind is covered by `RegisterServers` and `RunKeepsNoDuplicates`.
- Node type and API type, which no look-up uses; daemon start, admin tokens and key validation requests: which keys are accepted is an input.
- `build_fallback_chain`, `classify_route` and `normalize_base_url`: a filter loop and finite branches; stripping `/v1` is not idempotent.
- The patterns of `classify`: the classified risk is an input. Coordinates, evidence records and observations of `act` are not modelled.
- `sanitize_message`: a replacement loop over opaque texts.
- Scopes other than HTTP in the body limit, and how the content-length header is parsed: the declared size is an input.
- The rate limiter, mission store, launcher, redaction rules, CLI and access tables are not part of this model.
