# A verified model of the daisy-operator's hard core

daisy-operator drives a ClickHouse installation (clusters of shards of replicas, one StatefulSet per
replica) towards its spec. This project models, in Dafny, the parts of it where things can go wrong
quietly, and proves what they keep, what they reach and where they fall short:

* **Names and slots** (`Commons`, `Text`, `Parts`, `Names`, `Annotations`, `Slots`). How shards and
  replicas are named, how the delete-slots annotation is read back out of names, which ordinals a shard
  gets, and the two loops that fill the shard and replica maps until the map is large enough.
* **The reconcile loop** (`Reconcile`, `MemberManager`, `Passes`, `Tours`, `Runs`, `PausedRuns`,
  `StoredStatus`, `ReadBackRuns`, `Effects`, `Witnesses`). `MemberManager` is the loop with its nested iterations,
  updating the API server's StatefulSets and the status object in place; it is proved equal to a fold over
  a plan of actions (`Reconcile`). `Passes` proves what one pass achieves for any plan, `Tours` that every
  map iteration order gives such a plan, `Runs` what holds over whole runs, with the status carried from
  pass to pass or read back from the API server, a spec that may change at every pass, faults anywhere,
  and a cluster that changes the StatefulSets between passes. `PausedRuns` says exactly when a paused pass
  deletes safely, `StoredStatus` exactly when the status in the API server is true after a pass,
  `ReadBackRuns` what the reports of a new installation say about tables, and `Effects`, in terms of what
  is found and what fails, when a pass goes through, when tables are created and what a new StatefulSet
  holds; `Witnesses` gives concrete passes of Sync that fall short.
* **The retrying SQL applier** (`SqlApplier`). A list of statements swept again and again, executed
  ones cleared in place; a host is any function of what was executed on it so far.
* **Settings** (`Paths`, `Settings`, `Users`). Path normalisation, the in-place rewrite of the settings
  map, inheritance, and the securing of users.
* **XML** (`XmlText`, `XmlTree`, `XmlGenerator`, `XmlNodes`, `XmlDocument`, `XmlWords`, `XmlOrder`). The
  tree of nodes grown in place from sorted paths and printed; a reader of nested tags as an independent
  reference; and what the document, read back, says about the settings, by path and by the words of
  their keys, and in which order.
* **Volumes and mounts** (`Volumes`, `Mounts`). Expanding PVCs, and the claims and mounts of a
  StatefulSet under construction.

Map iteration is arbitrary everywhere: either an order is a parameter, or the next element is chosen by
an unconstrained choice. API calls fail wherever a fault parameter says so, and nothing is assumed about
the faults unless a lemma states it.

## What turned out not to hold

Each of these has a concrete witness and an exact condition, or is stated for every input at once.

* A shard takes slots marked for others, because annotations are matched by substring: those of shard 10
  for shard 1 (`Annotations.SlotOfShardTenReachesShardOne`), and those of other clusters with dashes in
  their names (`Annotations.SlotsOfOtherClustersReachShardOne`). The exact rule is
  `Annotations.EntryMatchesIff`; what it means for the replicas that are removed is
  `Slots.AnnotatedReplicasAreTheOnesRemovedIff`.
* `getNextIndex` is wrong exactly when a slot is negative (`Slots.NextIndexRightIff`,
  `Slots.NegativeSlotShifts`). A shard whose own name has no dash gets such a slot, and loses its first
  replica whichever is marked (`Slots.ShortNameRemovesTheFirst`, `Slots.MarkingOneRemovesZero`).
* The fill loops do not end exactly when an explicit key equals a name still to be generated
  (`Slots.FillTerminatesIff`, `Slots.ExplicitShardBlocksTheLoop`).
* The comment on `applySQLs` says that all statements run on each host; that is so exactly with one host
  (`SqlApplier.EveryHostServedIff`), and with two or more every statement is missing on some host
  (`SqlApplier.SomeHostMissesIt`).
* A finished pass leaves replicas that are no longer wanted when their shard is gone from the spec or did
  not get smaller (`Runs.FinishedPassLeaves`, `Witnesses.DroppedShardIsLeft`,
  `Witnesses.RenamedReplicaIsLeft`), and what no later spec names is never deleted (`Runs.LeftoversStay`).
* A paused pass creates nothing but deletes: it is safe exactly if the shards it deletes from are complete
  (`PausedRuns.PausedPassSafeIff`, `Witnesses.PausedPassDeletesTheOnlyReplica`).
* Phase Normal does not mean that tables were created (`Runs.NormalWithoutTables`,
  `Witnesses.AdoptedReplicaHasNoTables`).
* A requeue or an error keeps a pass from writing the status at its end. Only a deletion writes it on the
  way, so what the API server says can be a stale Sync, or a NotSync of a replica that has its tables
  (`StoredStatus.StoredStatusHonestIff`, `Witnesses.DroppedStatusSaysSync`,
  `Witnesses.DroppedStatusMissesTables`; with a deletion `Witnesses.RequeuedAfterDeletionIsHonest`).
* As the controller reads the status back for every pass, a new installation whose replicas are all in
  service when the first pass finishes is reported Completed without any table
  (`ReadBackRuns.CompletedWithoutAnyTables`; in general `ReadBackRuns.TablesCreatedIff`).
* Inheriting files does not commute with normalisation (`Settings.MergeFromCBCommutesIff`,
  `Settings.HostFileDoesNotCommute`).
* A PVC request reduced after an expansion is accepted and ignored unless it falls below the claim
  template (`Volumes.ReductionRefusedIff`, `Volumes.ReductionAccepted`), and two StatefulSets can share a
  PVC name (`Volumes.PvcNamesClashIff`, `Volumes.SetsCanShareAPvc`).
* Of several containers with one name, only the first is offered the data and log mounts
  (`Mounts.SetupMountsExact`, `Mounts.SecondOfTwoIsSkipped`).

## Model

| member | source | states |
|---|---|---|
| Names.ReplicaNameInjective | controllers/daisymanager/util.go:304-306 | a replica name determines its shard name and its ordinal |
| Names.NamesClashIff | controllers/daisymanager/normalizer.go:460-462 | two generated names are equal exactly when ordinal, shard index and the dashed pair of installation and cluster agree; within one installation the names are unique |
| Names.InstallationsCanClash | controllers/daisymanager/normalizer.go:460-462 | dashes in installation and cluster names make names of two installations clash |
| Names.GeneratedPlaced | controllers/daisymanager/normalizer.go:460-462 | in one installation the name of a StatefulSet determines its cluster and its shard |
| Names.OrdinalRoundTrip | controllers/daisymanager/util.go:317-329 | the ordinal extracted from a generated replica name is its ordinal, or the largest Go int when that is smaller |
| Names.OrdinalOfOtherNames | controllers/daisymanager/util.go:317-329 | a name with one dash gives -1, and one with more gives 0 if its last part is not a number, and the number behind a plus sign if it is one |
| Names.GetDeleteSlotsForShard | controllers/daisymanager/util.go:331-354 | no annotation gives no slots; otherwise the slots are the last ordinals of exactly the entries that contain the shard name |
| Names.SlotsNonNegativeIff | controllers/daisymanager/util.go:317-354 | no slot is negative exactly when every matching entry has three dashed parts, which a shard name with two dashes guarantees |
| Parts.ContainsIff | controllers/daisymanager/util.go:348-348 | a string with a separator occurs in another exactly if at some position one part of the other ends with its first part, the middle parts are equal and the next one starts with its last |
| Annotations.EntryMatchesIff | controllers/daisymanager/util.go:347-352 | an annotated replica, of whatever cluster and shard, matches a shard exactly by that rule on the dashed parts of the two names |
| Annotations.DeleteSlotsExact | controllers/daisymanager/util.go:331-354 | for an annotation naming generated replicas of any clusters and shards, the slots of a shard are exactly the ordinals of those that match it |
| Annotations.AnnotationRoundTrip | controllers/daisymanager/util.go:331-354 | annotating replicas of one shard only gives back exactly the set of their ordinals |
| Annotations.SameClusterReachesIff | controllers/daisymanager/util.go:347-352 | within a cluster, a replica of shard j matches shard i exactly when the decimal text of i is a prefix of that of j |
| Annotations.SlotOfShardTenReachesShardOne | controllers/daisymanager/util.go:347-352 | a slot of shard 10 is also taken by shard 1 |
| Annotations.DashlessReachesIff | controllers/daisymanager/util.go:347-352 | without dashes in the names of installation and clusters, exactly when a slot is taken by another shard: the prefix rule in the same cluster, and across clusters only for one whose name is the index of the marked shard |
| Annotations.PrefixedClusterReaches | controllers/daisymanager/util.go:347-352 | a shard takes every slot of the shard with its index in the cluster called like installation, dash, cluster |
| Annotations.SuffixedClusterReaches | controllers/daisymanager/util.go:347-352 | and every slot of the cluster called like cluster, dash, index |
| Annotations.SlotsOfOtherClustersReachShardOne | controllers/daisymanager/util.go:347-352 | in installation x, shard 1 of cluster c takes slots of the clusters x-c and c-1 |
| Slots.Nth | controllers/daisymanager/normalizer.go:752-776 | the i-th natural outside the slots: outside them, with exactly i such naturals below it |
| Slots.NthIsSelection | controllers/daisymanager/normalizer.go:752-776 | that selection is strictly increasing, onto the complement of the slots, and moves an index by at most the number of slots |
| Slots.Ascending | controllers/daisymanager/normalizer.go:756-756 | the sorted list of a set: increasing, with the same members and size |
| Slots.GetNextIndex | controllers/daisymanager/normalizer.go:752-776 | for any slots, the loop returns the (index + number of negative slots)-th natural outside them |
| Slots.NextIndexRightIff | controllers/daisymanager/normalizer.go:752-776 | it is the index-th natural outside the slots exactly when no slot is negative |
| Slots.NegativeSlotShifts | controllers/daisymanager/normalizer.go:752-776 | a single slot of -1 shifts every replica |
| Slots.OrdinalsExact | controllers/daisymanager/normalizer.go:477-565 | with layout L and n non-negative slots, a fresh shard gets the L-n smallest naturals outside the slots if L > n, else 0..L-1; all below L; exactly [0,L) minus the slots when they lie in it; never empty |
| Slots.OrdinalsOfAnySlots | controllers/daisymanager/normalizer.go:477-565 | for any slots in force, negative ones included, exactly which naturals become ordinals |
| Slots.MarkingASlotRemovesItIff | controllers/daisymanager/normalizer.go:500-527 | marking the slot of an existing replica removes exactly that one and renames no other, precisely while the slots then still number less than the layout |
| Slots.FillContents | controllers/daisymanager/normalizer.go:545-555 | what collision-free rounds of a fill loop leave: the old entries unchanged and exactly the next names, with the new value |
| Slots.FillTerminatesIff | controllers/daisymanager/normalizer.go:440-458 | a fill loop ends exactly when no pre-existing key is a name it will generate, and then at exactly the target size if it started no larger |
| Slots.ExplicitShardBlocksTheLoop | controllers/daisymanager/normalizer.go:440-458 | with two shards wanted and only the second given, under its generated name, the loop never reaches two |
| Slots.ReplicaNames | controllers/daisymanager/util.go:304-306 | the names a shard generates are pairwise distinct |
| Slots.ShardNames | controllers/daisymanager/normalizer.go:440-462 | the shard names a cluster generates are pairwise distinct |
| Slots.Layout.EnsureClusterLayoutShards | controllers/daisymanager/normalizer.go:440-458 | on the inputs on which it ends, the loop brings the map of shards to exactly the count, keeping what was there; a larger map is left alone |
| Slots.Shard.NewReplicas | controllers/daisymanager/normalizer.go:536-543 | the set of names the shard should have |
| Slots.Shard.FillReplicas | controllers/daisymanager/normalizer.go:545-555 | the map of replicas is filled with generated names up to exactly the count |
| Slots.Shard.DropReplicas | controllers/daisymanager/normalizer.go:557-564 | exactly the replicas without a generated name are dropped, the others keep their value |
| Slots.Shard.NormalizeReplicas | controllers/daisymanager/normalizer.go:530-565 | fills when there are too few replicas, drops foreign names when there are too many |
| Slots.Shard.NormalizeShard | controllers/daisymanager/normalizer.go:477-497 | slots read from the annotation, counted, ignored when they were not applied to the count, and the replicas filled accordingly |
| Slots.OthersAreDropped | controllers/daisymanager/normalizer.go:557-564 | a shard given more replicas than its count ends with exactly the given ones whose ordinal is among those of the layout, each with its value; with exactly the count if it was given all of these |
| Slots.MissingAreFilled | controllers/daisymanager/normalizer.go:545-555 | a shard given at most its count ends with exactly the count, keeping what it was given and adding the names of the last ordinals of the layout |
| Slots.OrdinalsAscend | controllers/daisymanager/normalizer.go:752-776 | the ordinals of a layout are listed in increasing order |
| Slots.ThirdReplicaIsDropped | controllers/daisymanager/normalizer.go:557-564 | given replicas 0, 1 and 2 and a layout of two, replica 2 goes and 0 and 1 stay |
| Slots.FreshReplicas | controllers/daisymanager/normalizer.go:477-565 | a shard that starts empty gets exactly the replicas named by its ordinals |
| Slots.AnnotatedReplicasAreTheOnesRemovedIff | controllers/daisymanager/normalizer.go:477-565 | end to end, for any annotation that names generated replicas and a shard with a generated name: exactly the replicas marked for the shard are missing from those the layout creates if and only if no other slot matches and all are below the layout, or the slots are ignored as too many and none of its own is below the layout |
| Slots.ShortNameRemovesTheFirst | controllers/daisymanager/normalizer.go:477-565 | a shard with a name of its own without dashes: whichever replicas are marked, the first one is removed and no other, which is right exactly if it alone is marked |
| Slots.MarkingOneRemovesZero | controllers/daisymanager/normalizer.go:477-565 | marking replica 1 of two of shard s removes replica 0 |
| SqlApplier.TryAccounts | controllers/daisymanager/schemer.go:356-372 | handling one statement keeps the account: the statements that succeeded are exactly those cleared, each once |
| SqlApplier.RunSweep | controllers/daisymanager/schemer.go:354-374 | one sweep over the array of statements equals the specified one and clears exactly the executed statements in place |
| SqlApplier.Retry | controllers/daisymanager/util.go:357-387 | sweeps until one reports no error or the tries are used up |
| SqlApplier.ApplySQLs | controllers/daisymanager/schemer.go:344-378 | over all hosts with the shared array: result, logs and remaining statements are those specified |
| SqlApplier.ReplicaApplySQLs | controllers/daisymanager/schemer.go:332-335 | on the one host of a new replica: nil exactly if all texts were cleared; with retry, chains of at most ten statements succeed; on a strict host that succeeds exactly if no chain has ten backward links, without retry exactly if none has one |
| SqlApplier.ViewBeforeTable | controllers/daisymanager/schemer.go:349-354 | a view listed before its table succeeds exactly with retry |
| SqlApplier.ElevenReversed | controllers/daisymanager/schemer.go:349-374 | eleven statements, each needing the next, fail even with retry |
| SqlApplier.SweepFailsIff | controllers/daisymanager/schemer.go:354-374 | a sweep returns no error exactly when it leaves nothing it looked at |
| SqlApplier.NilIffNothingLeft | controllers/daisymanager/schemer.go:344-378 | on one host the result is nil exactly when no statement is left; statements that succeeded are exactly those cleared, each once |
| SqlApplier.RetryResolvesIff | controllers/daisymanager/schemer.go:344-378 | dependencies are resolved if no dependency chain has as many backward links as there are tries, and on a host where statements fail until their dependencies are there, only then |
| SqlApplier.ChainsOfTenResolve | controllers/daisymanager/schemer.go:349-374 | with retry, dependency chains of at most ten statements resolve in whatever order they are listed |
| SqlApplier.ListedInOrderResolves | controllers/daisymanager/schemer.go:349-374 | without retry one sweep is enough when each statement is listed after those it needs |
| SqlApplier.ElevenInReverseFail | controllers/daisymanager/schemer.go:349-374 | the bound is sharp: eleven statements in reverse order exhaust the ten tries |
| SqlApplier.SharedListRunsOnce | controllers/daisymanager/schemer.go:344-378 | over all hosts together each statement succeeds at most once, and the result is nil exactly when nothing is left |
| SqlApplier.SomeHostMissesIt | controllers/daisymanager/schemer.go:347-348 | with two or more hosts every statement is missing on some host, whatever the result says |
| SqlApplier.EveryHostServedIff | controllers/daisymanager/schemer.go:347-375 | when the result is nil, a statement has run on every host exactly if there is one host |
| SqlApplier.LastLeftIsReported | controllers/daisymanager/schemer.go:354-377 | the error that is returned is that of the last statement left |
| Reconcile.RunAppend | controllers/daisymanager/daisy_member_manager.go:610-637 | a pass over two parts of a plan is the one after the other, stopping at the first error or requeue |
| MemberManager.DaisyMemberManager.GetReplicaStatus | api/v1/type_installation.go:120-132 | the search over all clusters and shards finds an entry with the name if there is one, which for generated names is the replica's own |
| MemberManager.DaisyMemberManager.SyncReplicaStatus | controllers/daisymanager/daisy_member_manager.go:968-1029 | no ready pod gives Scale and NotSync; at its generation and NotSync gives Ready; anything else gives Normal and counts as ready |
| MemberManager.DaisyMemberManager.SyncStatefulSet | controllers/daisymanager/daisy_member_manager.go:685-781 | nothing when paused; a missing set is created and a requeue asked for; a changed one is updated and its status taken from an all-zero set even if the update fails; an unchanged one is looked at as it is |
| MemberManager.DaisyMemberManager.SyncReplica | controllers/daisymanager/daisy_member_manager.go:642-683 | after its set and service, a replica that is Ready and not Sync gets its tables, is set to Sync and counted as ready; any failure stops before |
| MemberManager.DaisyMemberManager.DeleteReplica | controllers/daisymanager/daisy_member_manager.go:1113-1190 | a set that is gone is left alone, status entry included; otherwise set and status entry are removed together, also when the steps after that fail; and if none fails the whole status as worked out so far is written, unless the installation cannot be read |
| MemberManager.DaisyMemberManager.SyncReplicas | controllers/daisymanager/daisy_member_manager.go:610-619 | the loop over the replicas of a shard is the run of its visits, up to the first error |
| MemberManager.DaisyMemberManager.DeleteExtras | controllers/daisymanager/daisy_member_manager.go:624-636 | the loop over the remembered replicas is the run of the deletions of those no longer wanted |
| MemberManager.DaisyMemberManager.SyncShard | controllers/daisymanager/daisy_member_manager.go:581-640 | a shard: all visits, then deletions if it had more replicas than it has |
| MemberManager.DaisyMemberManager.SyncConfiguration | controllers/daisymanager/daisy_member_manager.go:539-579 | all shards in any order, up to the first error |
| MemberManager.DaisyMemberManager.ReplicasCount | controllers/daisymanager/member_context.go:56-67 | the accumulated count is the number of replicas of the spec |
| MemberManager.DaisyMemberManager.BeginSync | controllers/daisymanager/util.go:389-398 | every pass begins with no replica counted as ready, the number of replicas of its spec, and InProgress |
| MemberManager.DaisyMemberManager.EndSync | controllers/daisymanager/daisy_member_manager.go:168-199 | the spec is remembered, Completed is reported only when all replicas were counted ready, and the status is written unless something fails before or the installation cannot be read |
| MemberManager.DaisyMemberManager.SyncInstallation | controllers/daisymanager/daisy_member_manager.go:103-199 | a pass: what is reset first, all shards in order, and the end only after all of them went through; where each failure leaves the status in memory and in the API server |
| Tours.GeneratedUnique | controllers/daisymanager/daisy_member_manager.go:581-640 | generated names are unique over the new and the remembered spec together |
| Tours.TourIsPlan | controllers/daisymanager/daisy_member_manager.go:539-640 | every iteration order visits each wanted replica once and deletes exactly the extra ones of shrinking shards, each once, after the visits of its shard |
| Passes.RunIsLocal | controllers/daisymanager/daisy_member_manager.go:642-683 | a pass changes a StatefulSet or a status entry only if it visits or deletes that replica |
| Passes.FinishedPassAt | controllers/daisymanager/daisy_member_manager.go:642-781 | what a finished pass leaves for each wanted replica, in terms of what it found |
| Passes.FinishedPassCounts | controllers/daisymanager/daisy_member_manager.go:667-683 | a finished pass adds the number of wanted replicas in service to the ready counter, none twice although two places count |
| Passes.NotDoomedStays | controllers/daisymanager/daisy_member_manager.go:621-637 | a StatefulSet the plan does not delete stays, whatever fails |
| Passes.OnlyGoalAppears | controllers/daisymanager/daisy_member_manager.go:735-751 | a pass creates StatefulSets of wanted replicas only |
| Passes.DeletedOnlyWhenShardComplete | controllers/daisymanager/daisy_member_manager.go:610-637 | in an unpaused pass, whatever fails, a StatefulSet disappears only as an extra replica of a shard all of whose wanted replicas had theirs |
| Passes.PassCreatesOne | controllers/daisymanager/daisy_member_manager.go:735-751 | without faults a pass creates exactly one missing StatefulSet and asks to be requeued, or finishes if none is missing |
| Passes.MissingShrinks | controllers/daisymanager/daisy_member_manager.go:735-751 | the number of missing StatefulSets measures the requeue loop: a requeued pass lowers it by one |
| Passes.RunIsHonest | controllers/daisymanager/daisy_member_manager.go:667-677 | every pass, however it ends, keeps the status saying Sync exactly of replicas whose tables were created since they were last seen down |
| Effects.PassFinishesIff | controllers/daisymanager/daisy_member_manager.go:642-781 | a pass goes through exactly if, replica by replica and in terms of the state before it, nothing it needs fails and no wanted StatefulSet is missing |
| Effects.FailedTablesFailThePass | controllers/daisymanager/daisy_member_manager.go:670-677 | a pass that gets to a replica due for its tables ends in an error if they cannot be created |
| Effects.NewSyncNeedsTables | controllers/daisymanager/daisy_member_manager.go:670-677 | paused or not, a replica that a pass brings in sync is one whose tables could be created |
| Effects.TablesWereCreated | controllers/daisymanager/daisy_member_manager.go:670-677 | over every run, each record of created tables was made by a pass in which creating them succeeded |
| Effects.AddedSets | controllers/daisymanager/statefulset_util.go:70-83 | a StatefulSet that a pass adds is that of a wanted replica, with its configuration, one replica and no ready pod |
| Effects.RoundEnds | controllers/daisymanager/daisy_member_manager.go:103-199 | exactly when a pass succeeds, when it writes the status at its end, and which spec it remembers |
| Runs.SyncRunIsRun | controllers/daisymanager/daisy_member_manager.go:103-199 | passes over generated names, each in an iteration order of its own, with the status carried along or read back, form a run in the sense of the lemmas below, with unique names at every round |
| Runs.RequeuesOncePerMissing | controllers/daisymanager/daisy_member_manager.go:539-640 | with a fixed unpaused spec and no faults the loop is requeued exactly once per missing StatefulSet, then finishes, whatever the order, whatever the cluster reports, and whether the status is carried or read back |
| Runs.FinishedPassReports | controllers/daisymanager/daisy_member_manager.go:177-183 | after a finished unpaused pass ReadyReplicas is the number of wanted replicas found in service, at most ReplicasCount, and the state is Completed exactly when all are |
| Effects.FinishedPassApplies | controllers/daisymanager/daisy_member_manager.go:753-781 | after a finished pass every wanted StatefulSet has its configuration, and one replica if it had to be updated, unless the update failed, which the pass passes over |
| Effects.RolloutDecides | pkg/k8s/controller_utils.go:127-142 | a replica in service and not yet in sync is brought in sync by a finished pass exactly if it was NotSync and the rollout of its StatefulSet is finished; otherwise it gets phase Normal |
| Runs.ConvergesToCompleted | controllers/daisymanager/daisy_member_manager.go:1277-1287 | once as many passes as StatefulSets were missing have gone by, a pass that finds all in service completes |
| Runs.RoundDeletesSafely | controllers/daisymanager/daisy_member_manager.go:610-637 | one round deletes only extra replicas of shards that are complete before and after it |
| Runs.ScaleOutBeforeScaleIn | controllers/daisymanager/daisy_member_manager.go:610-637 | so does every unpaused pass of every run, with any faults and a spec that may change each time |
| PausedRuns.PausedDeletionSafeIff | controllers/daisymanager/daisy_member_manager.go:621-637 | whatever fails, what a paused pass deletes is deleted safely exactly if all wanted replicas of its shard had their StatefulSets |
| PausedRuns.PausedPassSafeIff | controllers/daisymanager/daisy_member_manager.go:621-637 | a finished paused pass keeps scale-out before scale-in exactly if every shard with an extra replica to delete was complete |
| PausedRuns.PausedPassDeletesFirst | controllers/daisymanager/daisy_member_manager.go:709-712 | with an extra replica to delete and a wanted one of its shard missing, a paused pass deletes the one and does not create the other |
| Witnesses.PausedPassDeletesTheOnlyReplica | controllers/daisymanager/daisy_member_manager.go:621-637 | a pass Sync makes, paused, with replica 1 to be replaced by replica 0, deletes the only replica there is |
| Runs.FinishedPassLeaves | controllers/daisymanager/daisy_member_manager.go:539-637 | of the remembered replicas no longer wanted, a finished pass leaves exactly those that existed in a shard that is gone from the spec or has at least as many replicas as before |
| Witnesses.RenamedReplicaIsLeft | controllers/daisymanager/daisy_member_manager.go:621-637 | a pass Sync makes over a shard whose one replica was renamed leaves the old one |
| Witnesses.DroppedShardIsLeft | controllers/daisymanager/daisy_member_manager.go:543-579 | a pass Sync makes after the shard was dropped from the spec leaves its replica |
| Runs.LeftoversStay | controllers/daisymanager/daisy_member_manager.go:621-637 | a StatefulSet that neither the remembered nor a later spec names is never deleted |
| Runs.StatusStaysHonest | controllers/daisymanager/daisy_member_manager.go:667-677 | over every run with the status carried along, Sync is said exactly of replicas whose tables were created since they were last seen created, updated or without their ready pod |
| Effects.SyncMeansTables | controllers/daisymanager/daisy_member_manager.go:667-677 | over such a run, a replica in Sync had its tables created successfully by the pass that recorded the last thing that happened to it |
| StoredStatus.EveryPassStops | controllers/daisymanager/daisy_member_manager.go:610-637 | every pass carried out a part of its plan in full and was then cut short in one action, unless that part was all of it |
| StoredStatus.DroppedStatusHonestIff | controllers/daisymanager/daisy_member_manager.go:968-1029 | a status entry from before a pass, or before the rest of one, still tells the truth after it exactly if: visited, it was not Sync and found out of service, nor NotSync and given tables, nor, by a paused pass, Ready and waiting for them; deleted, or cut short after a change, it was not Sync; not reached, always |
| StoredStatus.EveryPassSplits | controllers/daisymanager/daisy_member_manager.go:1176-1187 | every pass splits at the last deletion that wrote the status, into what was carried out up to it and what was carried out after it |
| StoredStatus.StoredStatusHonestIff | controllers/daisymanager/daisy_member_manager.go:1176-1187 | the status entry of a replica in the API server is honest after a pass exactly if the replica was dealt with up to the last write, or its entry from before the pass survives what came after |
| StoredStatus.StoredRoundHonestIff | controllers/daisymanager/daisy_member_manager.go:161-199 | the same for every round that got to its plan, paused or not and however it ended; after one that wrote the status at its end every entry is honest |
| StoredStatus.ReadBackHonestIff | controllers/daisyinstallation_controller.go:60-74 | what the next pass starts from when the status is read back is honest exactly if what is stored is |
| StoredStatus.DeletionRound | controllers/daisymanager/daisy_member_manager.go:1176-1187 | a requeued round that found a replica without its pod and then deleted an extra one has stored both facts |
| Witnesses.DroppedStatusSaysSync | controllers/daisymanager/daisy_member_manager.go:161-166 | a requeued pass Sync makes after which the stored status says Sync of a replica that lost its pod |
| Witnesses.DroppedStatusMissesTables | controllers/daisymanager/daisy_member_manager.go:161-166 | and one after which it says NotSync of a replica whose tables were created |
| Witnesses.RequeuedAfterDeletionIsHonest | controllers/daisymanager/daisy_member_manager.go:1176-1187 | a requeued pass over two shards that deleted a replica on its way: the stored status is honest about the one it found down and the one it deleted |
| Witnesses.ShrinkingIsSync | controllers/daisymanager/daisy_member_manager.go:539-640 | with generated names that is a pass Sync makes |
| Runs.SyncInOnePassNormalInTwo | controllers/daisymanager/daisy_member_manager.go:1010-1025 | a replica in NotSync in service at its generation is in state Sync after one finished pass and in phase Normal after two |
| Runs.NormalWithoutTables | controllers/daisymanager/daisy_member_manager.go:1010-1025 | exactly when a replica in service that is not in sync gets phase Normal without its tables being created |
| Witnesses.AdoptedReplicaHasNoTables | controllers/daisymanager/daisy_member_manager.go:1010-1025 | a pass Sync makes that reports a replica Normal and the installation Completed without tables |
| ReadBackRuns.StateTells | controllers/daisyinstallation_controller.go:60-74 | for a new installation, from the first finished pass on: the stored state of a replica is empty if all finished passes saw it in service, Sync if it was in service at its generation since it was last seen otherwise, else NotSync |
| ReadBackRuns.TablesCreatedIff | controllers/daisyinstallation_controller.go:60-74 | its tables were created since it was last down exactly in the second case |
| ReadBackRuns.CompletedIff | controllers/daisymanager/daisy_member_manager.go:177-183 | but Completed is reported exactly when a finished pass sees all replicas in service |
| ReadBackRuns.CompletedWithoutAnyTables | controllers/daisymanager/daisy_member_manager.go:177-183 | so a new installation whose first finished pass sees all replicas in service is Completed with no table created for any |
| Paths.NormalizedIsNormal | api/v1/type_settings.go:505-512 | a normalised path has no slash at an end and no two in a row |
| Paths.LengthTestIsExact | api/v1/type_settings.go:483-489 | normalisation only shortens, so comparing lengths tells exactly whether it changed the path, and what it leaves alone are exactly the normal paths |
| Paths.NormalizeIdempotent | api/v1/type_settings.go:505-512 | normalising twice is normalising once |
| Paths.NormalizeIsJoinOfWords | api/v1/type_settings.go:505-512 | normalising means cutting at slashes, dropping empty parts and joining again |
| Settings.SettingsMap.PathsToNormalize | api/v1/type_settings.go:480-489 | the first loop lists exactly the keys that normalisation changes |
| Settings.SettingsMap.AddNormalized | api/v1/type_settings.go:491-495 | the second loop keeps all old keys and gives each image the value of one of its keys |
| Settings.SettingsMap.DeleteRaw | api/v1/type_settings.go:497-500 | the last loop removes exactly the un-normalised keys |
| Settings.SettingsMap.NormalizePaths | api/v1/type_settings.go:474-501 | in place, the keys become exactly the images of the old keys, each with the value of a key with that image, un-normalised ones first |
| Settings.SettingsMap.MergeFrom | api/v1/type_settings.go:326-344 | entries of the parent are added where the child has none |
| Settings.SettingsMap.MergeFromCB | api/v1/type_settings.go:347-362 | accepted entries of the parent replace the child's |
| Settings.SettingsMap.InheritFilesFrom | api/v1/type_installation.go:201-211 | exactly the files whose first path part names the host section, in any case, replace what the cluster has |
| Settings.InheritedSections | api/v1/type_settings.go:514-539 | files under host and conf.d, in any case, are inherited; those under config.d, users.d, common and users are not |
| Settings.HostAloneAndLongS | api/v1/type_settings.go:514-539 | a path of one part has no section, and case folding takes the long s for an s |
| Settings.RemoveRaw | api/v1/type_settings.go:491-500 | deleting the un-normalised keys after the writes completes a normalisation: nothing just written is deleted |
| Settings.NormalizedKeys | api/v1/type_settings.go:479-501 | afterwards all keys are normal and are exactly the images of the old ones |
| Settings.NormalizationUnique | api/v1/type_settings.go:479-501 | when no two un-normalised keys share an image the result does not depend on the iteration order |
| Settings.SecondRunChangesNothing | api/v1/type_settings.go:479-501 | a second run changes nothing |
| Settings.MergeThenNormalize | controllers/daisymanager/normalizer.go:477-483 | normalising the child and merging a normalised parent in is a result of merging first and normalising then |
| Settings.NormalizeThenMerge | controllers/daisymanager/normalizer.go:477-483 | and every result of merging first and normalising then is of that form, with or without clashes |
| Settings.RawParentBeatsChild | api/v1/type_settings.go:326-344 | a parent that is not normalised would override the child |
| Settings.MergeFromCBCommutesIff | api/v1/type_installation.go:201-211 | for inherited files, normalising first equals merging first exactly if, wherever un-normalised child keys stand for an accepted parent key, one of them has the parent's value |
| Settings.RawFileWins | api/v1/type_installation.go:201-211 | a file the cluster writes un-normalised: merging first leaves the cluster's text, normalising first the installation's |
| Settings.HostFileDoesNotCommute | api/v1/type_installation.go:201-211 | an instance with a file of the host section, which the filter accepts, next to one it does not |
| Settings.FreshReplicaHasShardSettings | controllers/daisymanager/normalizer.go:579-584 | a fresh replica ends with its shard's settings, a shard with the cluster's under its own normalised ones |
| Users.Normalizer.UserNames | controllers/daisymanager/normalizer.go:212-234 | exactly the first parts of paths with at least two parts, and the default user |
| Users.MustHaveSections | controllers/daisymanager/normalizer.go:236-250 | every section is there, a supplied value is kept, and nothing but sections is added |
| Users.Normalizer.HideOne | controllers/daisymanager/normalizer.go:252-276 | a hash is computed only from a password in force and where none is supplied; where there is a hash, the password goes, or is marked removed for "default" |
| Users.Normalizer.SecureOne | controllers/daisymanager/normalizer.go:235-277 | sections first, then the password; together what Users.SecureUserResult describes |
| Users.Normalizer.NormalizeConfigurationUsers | controllers/daisymanager/normalizer.go:199-278 | in any order of users, the result is the normalised map with every user secured as if it were the only one and nothing else changed |
| Users.SecureIsLocal | controllers/daisymanager/normalizer.go:235-277 | securing a user changes only paths of that user |
| Users.SecureNext | controllers/daisymanager/normalizer.go:235-277 | the invariant of the loop over the users: which user comes next does not matter |
| Users.SecureUserResult | controllers/daisymanager/normalizer.go:235-277 | every section present, supplied values kept, when a hash is there and which one, and what is left of the password |
| Users.SecuredUsers | controllers/daisymanager/normalizer.go:199-278 | afterwards every user and "default" has all sections with supplied values kept, and nobody has both password and hash except "default", whose password is marked removed |
| Users.UserIsNamed | controllers/daisymanager/normalizer.go:212-226 | a user is a first part of some path with at least two parts, or "default" |
| Users.SectionsGetDefaults | controllers/daisymanager/normalizer.go:236-250 | each section of each user is the supplied one, or else the default that belongs to it |
| Users.MissingSections | controllers/daisymanager/normalizer.go:236-250 | path by path: which default a missing profile, quota, network list and host pattern gets |
| Users.PasswordIsHashed | controllers/daisymanager/normalizer.go:252-276 | which text is hashed: the supplied password, else for users other than "default" the configured one; a supplied hash is kept, and what is left of the password |
| Users.OtherSettingsStay | controllers/daisymanager/normalizer.go:235-277 | every other setting is left as it was |
| Users.SecuredUnique | controllers/daisymanager/normalizer.go:235-277 | the result does not depend on the order of the users |
| Users.SecondRunChangesNoUser | controllers/daisymanager/normalizer.go:199-278 | a second run changes nothing |
| XmlText.ReadPrint | pkg/util/xml/xml.go:127-202 | what is printed for a node reads back as the elements it stands for, at any depth and any indent, including past the wrap of the 8-bit indent |
| XmlText.DocumentRoundTrip | pkg/util/xml/xml.go:127-202 | the printed document is well formed, each end tag matching its start tag, and reads back as the nested elements of the tree: one per vector entry, children of valued nodes dropped |
| XmlText.SampleDocument | pkg/util/xml/xml.go:127-202 | the exact text of a small document: indents, line breaks, tags |
| XmlText.ListLines | pkg/util/xml/xml.go:142-144 | the values of a list are printed one by one in their order |
| XmlText.RemovalLine | pkg/util/xml/xml.go:162-173 | the exact line of a removed value |
| XmlTree.FindChild | pkg/util/xml/xml.go:110-115 | the first child with the tag, or none |
| XmlTree.LookupAddBranch | pkg/util/xml/xml.go:95-101 | a branch sets the value at its own path and at no other |
| XmlTree.AddBranchDistinct | pkg/util/xml/xml.go:95-124 | siblings keep distinct tags at every level |
| XmlTree.ShownIff | pkg/util/xml/xml.go:127-173 | an element with a text stands at a path exactly if that is a value of the setting there and no setting sits above |
| XmlGenerator.SortFacts | pkg/util/xml/xml.go:58-58 | sorting: sorted, same members, no new repeats |
| XmlGenerator.LeqIff | pkg/util/xml/xml.go:58-58 | the order: a text is before those it begins and those with a larger character at the first difference |
| XmlGenerator.GrowLookup | pkg/util/xml/xml.go:64-73 | after all branches the tags of a listed path lead to its setting |
| XmlGenerator.TreeRefinesMap | pkg/util/xml/xml.go:39-73 | the tree is the map: distinct siblings, each path leads to a setting with that path, each valued node is the path of a setting |
| XmlGenerator.OutputIndependentOfOrder | pkg/util/xml/xml.go:39-77 | with distinct normalised paths the text does not depend on the iteration order of the map |
| XmlNodes.XmlNode.AddChild | pkg/util/xml/xml.go:104-124 | returns the first child with the tag, appending a new one if there is none; the subtrees stay disjoint |
| XmlNodes.XmlNode.AddBranch | pkg/util/xml/xml.go:95-101 | growing the linked nodes in place makes the tree they stand for the one in which XmlTree.LookupAddBranch finds the setting |
| XmlText.ReadStart | pkg/util/xml/xml.go:176-202 | a printed start tag, indented and with or without the remove marker, opens one element with that name |
| XmlText.ReadEnd | pkg/util/xml/xml.go:176-202 | a printed end tag closes the element of that name |
| XmlNodes.XmlNode.WriteTagWithValue | pkg/util/xml/xml.go:162-173 | writes a value between its tags, or the remove marker |
| XmlNodes.XmlNode.WriteVector | pkg/util/xml/xml.go:142-144 | one element per vector entry |
| XmlNodes.XmlNode.WriteTagNoValue | pkg/util/xml/xml.go:151-157 | writes the tag around its children in order |
| XmlNodes.XmlNode.BuildXML | pkg/util/xml/xml.go:127-145 | appends exactly the printed form of the tree the nodes stand for |
| XmlNodes.GenerateXML | pkg/util/xml/xml.go:39-77 | from the map in any iteration order, through the nodes in place, to the text of its tree |
| XmlDocument.MaskedBySetting | pkg/util/xml/xml.go:127-157 | a path is cut off exactly when the path of some setting ends above it |
| XmlDocument.DocumentShowsIff | pkg/util/xml/xml.go:39-202 | the generated text, read back, has an element with a text at the path of a setting exactly if that is one of its values and no other setting's path ends above: nothing is lost when no path is a prefix of another |
| XmlDocument.NothingElseShown | pkg/util/xml/xml.go:39-202 | an element with a text in the document read back is at the path of some setting, except that a group whose settings print nothing holds a line break and spaces |
| XmlWords.TagsOfWords | pkg/util/xml/xml.go:81-92 | the tags of a key are the tag of the section, if there is one, and then its non-empty parts |
| XmlWords.DocumentShowsWordsIff | pkg/util/xml/xml.go:39-202 | the generated text, read back, shows a text at the tag of the section and the words of a key exactly if it is a value of that setting and the words of no other key are a proper prefix |
| XmlOrder.ChildrenExact | pkg/util/xml/xml.go:39-124 | a node of the tree has a child for exactly the tags with settings under them |
| XmlOrder.ChildrenInOrder | pkg/util/xml/xml.go:58-73 | children, and so the elements of the document, are in the order of their smallest paths |
| Volumes.GetClaim | pkg/k8s/controller_utils.go:291-298 | the first claim with the name, none only if there is none |
| Volumes.ValidUpdateIff | controllers/daisymanager/validation.go:21-47 | an update is accepted exactly if every claim existed before, none shrinks, and those that grow may be expanded |
| Volumes.ValidUpdateMeans | controllers/daisymanager/validation.go:21-47 | the same in numbers: for each claim the first earlier one with its name decides, and two sizes that are both set must not decrease and may grow only if the claim may be expanded |
| Volumes.PvcNamesClashIff | pkg/k8s/controller_utils.go:228-250 | PVC names are equal exactly when the ordinal and the dashed pair of claim and set agree; within a set only for the same claim |
| Volumes.SetsCanShareAPvc | pkg/k8s/controller_utils.go:228-250 | dashes in claim and cluster names let two sets of one installation share a PVC |
| Volumes.GoalIsMaximum | pkg/k8s/equality.go:201-215 | a PVC of the set is to be the maximum of its size and the expected one when both are set, else unchanged |
| Volumes.EveryPodIsCovered | pkg/k8s/controller_utils.go:228-274 | the PVC of every claim and every pod of the set is among those brought to their size |
| Volumes.OthersAreNotCovered | pkg/k8s/controller_utils.go:228-274 | and no other PVC is brought to another size |
| Volumes.Client.RetrieveActualPVCs | pkg/k8s/controller_utils.go:228-250 | exactly the existing PVCs of the set, under their claim, with their sizes, unless a call fails |
| Volumes.Client.ResizePVCs | controllers/daisymanager/daisy_member_manager.go:852-887 | success puts every PVC where it is to go and touches no other; failure, which needs a failing call, leaves each as it was or where it is to go |
| Volumes.Client.ResizeClaim | controllers/daisymanager/daisy_member_manager.go:867-884 | the inner loop, over the PVCs of one claim |
| Volumes.Client.HandleVolumeExpansion | controllers/daisymanager/daisy_member_manager.go:807-832 | a refused update changes nothing; otherwise as above; with no failing call it succeeds exactly for a valid update; and when re-creation is asked for |
| Volumes.NeedsRecreateIff | controllers/daisymanager/daisy_member_manager.go:835-847 | re-creation is asked for exactly if some claim and its template both have a size and that of the claim is larger |
| Volumes.NeverShrinks | controllers/daisymanager/daisy_member_manager.go:807-887 | over any run of calls for any sets, refused and cut short ones included, no PVC shrinks, appears or disappears, and one without a request never gets one |
| Volumes.StaysExpanded | controllers/daisymanager/daisy_member_manager.go:807-887 | after a successful call a PVC stays at least as large as its claim, however the run goes on |
| Volumes.SizesAreAskedFor | controllers/daisymanager/daisy_member_manager.go:867-884 | the size of a PVC is its first one or one some call of the run asked for, for that PVC |
| Volumes.RetriesReachGoal | controllers/daisymanager/daisy_member_manager.go:852-887 | retried after any number of half-finished calls, one success puts all PVCs exactly where a single successful call would have |
| Volumes.SecondExpansionChangesNothing | controllers/daisymanager/daisy_member_manager.go:852-887 | a second successful call changes nothing |
| Volumes.ReductionPassesIff | controllers/daisymanager/validation.go:27-46 | a request below the size of the PVC is let through exactly if it or its template has no size or it is not below the template, and the PVC keeps its size |
| Volumes.ReductionRefusedIff | controllers/daisymanager/daisy_member_manager.go:807-832 | for a whole call in which nothing fails: a reduction is refused exactly if some claim is new or below its template, and has no effect either way |
| Volumes.ReductionAccepted | controllers/daisymanager/daisy_member_manager.go:807-832 | a PVC of 20, of a template of 10 or without a size, survives a successful call that asks for 15 |
| Mounts.StatefulSetSpec.AppendPVCTemplate | controllers/daisymanager/statefulset_util.go:110-156 | a claim is appended exactly if none has the name of the template |
| Mounts.StatefulSetSpec.ApplyVolumeMounts | controllers/daisymanager/statefulset_util.go:159-176 | the claims after the mounts of all containers were gone through |
| Mounts.StatefulSetSpec.ApplyMountsOf | controllers/daisymanager/statefulset_util.go:167-174 | the inner loop, over the mounts of one container |
| Mounts.StatefulSetSpec.ApplyVolumeMount | controllers/daisymanager/statefulset_util.go:179-260 | the first container with the name gets the mount, with its claim, exactly if the template is known and neither name nor path is taken |
| Mounts.StatefulSetSpec.ApplyVolumeClaimTemplates | controllers/daisymanager/statefulset_util.go:263-271 | data and then log mount offered to every container in turn |
| Mounts.StatefulSetSpec.SetupVolumeClaimTemplates | controllers/daisymanager/statefulset_util.go:274-277 | both phases, for a set that has no claims yet |
| Mounts.SetupClaimsExact | controllers/daisymanager/statefulset_util.go:110-277 | claim names are pairwise distinct, claims copy their templates, and they are exactly the known templates that some container mounts |
| Mounts.SetupMountsExact | controllers/daisymanager/statefulset_util.go:179-271 | each container is offered both mounts once, but of several containers with one name only the first |
| Mounts.SecondOfTwoIsSkipped | controllers/daisymanager/statefulset_util.go:210-215 | of two containers with one name and no mounts, the data goes to the first only |
| Mounts.SetupKeepsMounts | controllers/daisymanager/statefulset_util.go:225-254 | a container's own mounts stay first and in order, at most two are added, and no name or path is doubled if none was |
| Mounts.DataMountedIff | controllers/daisymanager/statefulset_util.go:263-271 | exactly when a container ends up with the data mount |
| Mounts.LogMountedIff | controllers/daisymanager/statefulset_util.go:263-271 | exactly when it ends up with the log mount: also never the template already mounted for data |

## Left out

- The Kubernetes client, watches, events, finalizers and logging: the API server is a map, and a call fails when a fault parameter says so.
- Deletion of a whole installation, ConfigMaps and Services: errors there appear only as the points at which a pass stops.
- Creation and deletion of StatefulSets by anyone but the operator: between passes the cluster may change everything about a StatefulSet except whether it exists.
- The Added, Updated and Deleted counters, shard phase and health, transition times, and the label put on synced pods: written, never read by the modelled code.
- Of the status written in the middle of a pass only the replica entries are kept: the remembered spec in it is the one the pass started from, and counters and state are reset by the next pass.
- Phase Upgrade: the function that reports an upgrade always answers no.
- What makes two StatefulSet specs equal: a spec is one value, compared with the last applied one.
- The loops over clusters and over the shards of each cluster: one order over all shards, which includes every order of the two loops.
- Keys of the maps of clusters, shards and replicas that differ from the Name field of their value: taken to agree, as the normalizer makes them.
- Slots.Layout.EnsureClusterLayoutShards: requires that no key collides with a generated name, because otherwise the loop does not end; Slots.FillTerminatesIff shows that this is exactly when.
- Slots.Shard.FillReplicas: the same.
- Slots.Shard.NormalizeReplicas: the same.
- Slots.Shard.NormalizeShard: the same, and does not model the inherited settings and template names, which Settings covers.
- Names.GetDeleteSlotsForShard: decoding the annotation from JSON is a parameter, absent and malformed alike giving no slots.
- SqlApplier.ApplySQLs: waiting between tries; the fallback from CREATE to ATTACH on error 253 is part of the host's answer to a statement; hosts are distinct connections.
- Users.Normalizer.NormalizeConfigurationUsers: SHA-256, the configured defaults and the pod pattern are parameters.
- Settings.MergeThenNormalize: merging by copying whole settings; conversions from JSON are not modelled.
- XmlNodes.XmlNode.AddBranch: the walk down the tags is recursion, where the code moves a pointer in a loop; write errors are ignored, as in the code.
- XmlNodes.GenerateXML: the sorting algorithm of the library is a function with the sorted result.
- XmlText.DocumentRoundTrip: tags and values with markup in them, which the code prints unescaped.
- Volumes.Client.HandleVolumeExpansion: storage quantities are integers; looking up storage classes is a parameter, and so is the flag that asks for it, which the reconcile loop never sets.
- Mounts.StatefulSetSpec.SetupVolumeClaimTemplates: of a claim template only name and size are kept; the containers themselves are given.
- The remote_servers, macros and zookeeper sections, the SQL texts and their queries, the admission webhook, configuration files, labels and generated code: plumbing without a hard property.
