# A model of the Lustre CSI driver

This project models the parts of the Lustre CSI driver that are hard to get right, and
proves what they keep over every run. `dafny verify dfyconfig.toml` checks all of it.

Four components are modelled.

**Shared mounts on the node.** IAM volumes of one key share one Lustre mount. Its reference
count is a directory of marker files, one per pod. `SharedMounts` is a transition system whose
steps are the single lock operations and operating-system calls of publish, unpublish, stage and
unstage. Any number of RPCs interleave, every call may fail, and a call that reports failure
may have taken effect. `SharedMountSafety`, `SharedMountBalance`, `SharedMountTenancy` and
`SharedMountReplies` prove what every trace keeps and what an answer means, `SharedMountPublish` and
`SharedMountUnpublish` what one RPC achieves on its own, faults included. `Unmount` holds the umount cascade as a
method and shows that the steps of the transition system come to the same result. `VolumeLocks`
holds the lock set, and `GlobPatterns` the file-name patterns with which unpublish looks for references.

**Provisioning against an asynchronous backend.** `CreateOnce` and `Expand` are transition systems
in which an accepted operation outlives its RPC and completes or fails at any later moment.
`CreateOnceGuard` gives the exact conditions under which deleting defeats the promises of creation.
`Operations` holds the two searches of the operation log, `CreateVolume` the calls from request to
reply and runs of them, `CreateVolumeReplies` the same in terms of the request, `FilesystemNames`
the automatic names, `Capacity` the sizes and their 64-bit arithmetic.

**Routing tables for additional NICs.** `Routing` is the first-fit allocator and the set-up of
routes and rules. `RoutingRuns` proves what any sequence of set-ups keeps, failed ones included.
`RoutingCapacity` counts tables.

**Text that one part writes and another reads.** `VolumeIds`, `MountPoints`, `LnetNetworks` and
`ParameterKeys`, over the splitting, joining and trimming in `Text`. `ProcMounts` is the mount table as the kernel
lists it, and `Staging` the staging of volumes with its search of that table for a file-system name.

## What the proofs found

Where a promise does not hold, the project keeps the code as it is, gives a run that breaks the
promise and proves the exact condition under which it holds.

- Unpublishing any target of a pod drops the pod's references under every key, so it can tear down
  the shared mount below another bound target of that pod, even when the target that is unpublished
  is not an IAM volume (`NeighbourTearsDown`, `BoundTargetsAreProtected`).
- The pod UID in a target path is read as a file-name pattern. A UID with one of the characters `*`, `?`, `[` and
  backslash can remove the references of other pods (`StarRemovesOthers`, `OnlyOwnExactlyWhenUnmatched`).
- A bind mount that reports failure but leaves the target bound loses its reference before the target is
  unmounted (`DirtyBindLosesReference`). One that fails cleanly takes away the reference of another target
  with the same pod and key (`FailedBindTakesReference`).
- The comment at pkg/cloud_provider/lustre/lustre.go:285-286 says that an instance is never created twice.
  That holds exactly for instances that are not deleted, in whatever order operations are listed
  (`CreatedOnceExactlyWithoutDeletes`). The guard against asking again after a failed creation is lost the same
  way when operations are listed oldest first: the search returns the first creation on record, and after a delete
  that hides a later failed one (`StockoutGuardIsLost`, `GuardKeptExactlyWithoutDeletes`).
- Two expansions can shrink an instance, when the larger one timed out and completes after the smaller one has
  read the size. This happens exactly when two requests above the first size differ in whole GiB; a request that is
  less than one GiB above the present size can shrink the instance back to it (`SmallerRequestShrinks`,
  `NeverShrinksExactly`).
- A successful expansion reports less than was asked exactly when it resized and the request is not a whole
  number of GiB (`ReportCoversRequest`).
- A slash in a file-system name defeats the check for duplicate mounts, and so does a blank or another character that
  the kernel escapes in its mount table, because nothing decodes the escapes (`UncleanNameDefeatsCheck`,
  `NamesDifferExactlyWhenClean`).
- A NIC set-up that fails between route and rule can leave a table behind that nobody may use again (`RunNeeds`).
- A comma in a NIC name breaks the LNet string (`WrittenIsReadBack`).

## Assumptions

- A target path and a key are never the same lock name: a key is a hex digest and a target is an absolute path.
- Target paths lie outside the directory of the shared mounts, and no staging path is a target path.
- A pod UID is one file name: it has no slash and no backslash, and is not a dot or two dots. As the part of a target
  path that is read as a pattern it may hold anything but a slash.
- A mount probe that answers is truthful, and umount reports success only when the path is not mounted.
- The kernel lists each mount on one line, with at least blank, tab, line break and backslash as octal escapes and no
  character of `@tcp:/` as one; paths in it are absolute.
- A umount has any effect it will have before the call returns, and a path has at most one mount.
- Nobody but the driver unmounts the shared mounts, and none becomes corrupted. The probe at
  pkg/csi_driver/node.go:582-588 unmounts a corrupted mount without looking at its references.
- The theorems about tenants take the pod UID in a target path to be the one in the volume context.
- There is one driver process and one project. The backend accepts a creation or a resize, if at all, before the call
  returns, keeps an instance visible until its creation fails, and keeps its operation log. It may list the log in any
  order; only `StockoutGuardIsLost` and `GuardKeptExactlyWithoutDeletes` are about listings with the oldest operation first.
- Nobody else writes into the routing table of a NIC, uses a NIC's address in a rule or removes entries.

## Model

| member | source | states |
|---|---|---|
| VolumeLocks.Locks.TryAcquire | pkg/util/volume_lock.go:44-53 | Succeeds exactly when the name was free, and the name is locked afterwards either way. |
| VolumeLocks.Locks.Release | pkg/util/volume_lock.go:55-59 | The name is free afterwards and no other name changes. |
| VolumeLocks.HoldingsChange | pkg/util/volume_lock.go:44-59 | The lock set stays the disjoint union of what the holders hold when one holder frees its own names and takes names nobody has. |
| SharedMountSafety.RunIsSafe | pkg/csi_driver/node.go:236-500 | The inductive invariant of all interleavings with any faults: locks, reference count, what each step knows about its key, and no directory wiped in use. |
| SharedMountSafety.ReferencedKeyIsMounted | pkg/csi_driver/node.go:332-417 | In every reachable state a key with at least one pod reference has its shared mount mounted. |
| SharedMountSafety.MountedKeyHasToken | pkg/csi_driver/node.go:363-395 | In every reachable state a mounted key has its token file. |
| SharedMountSafety.WipeIsHarmless | pkg/csi_driver/node.go:896-923 | When an RPC is about to remove a key directory recursively, the key is unmounted, its mount directory is gone and no references directory is left. |
| SharedMountSafety.NothingIsDamaged | pkg/csi_driver/node.go:919-923 | No run ever removes recursively a key directory that is in use. |
| SharedMountSafety.OnlyMatchingReferenceIsRemoved | pkg/csi_driver/node.go:846-855 | In every run, a reference that disappears was removed by a step of an RPC of that same pod and key after a failed bind, or of an unpublish whose pod UID matches it as a pattern. |
| SharedMountSafety.OnlyOwnReferenceIsRemoved | pkg/csi_driver/node.go:886-889 | In every run, an RPC whose pod UID has no pattern characters removes only its own pod's reference. |
| SharedMountTenancy.OnlyOwnExactlyWhenUnmatched | pkg/csi_driver/node.go:846-855 | The RPCs of a pod UID remove no other pod's reference in any run, if and only if the UID matches no other UID as a pattern; a UID is a file name. |
| SharedMountTenancy.PatternRemovesOthers | pkg/csi_driver/node.go:846-889 | For any pod UID that matches another as a pattern, a run in which it removes the other's reference. |
| SharedMountTenancy.StarRemovesOthers | pkg/csi_driver/node.go:846-889 | A UID that ends in a star removes, in some run, the reference of any pod whose UID begins with the rest. |
| GlobPatterns.LiteralMatchesItself | pkg/csi_driver/node.go:846-849 | A pattern without special characters matches exactly itself. |
| GlobPatterns.MatchIsWellFormed | pkg/csi_driver/node.go:846-852 | A pattern that matches something is well-formed, so a malformed one finds nothing. |
| GlobPatterns.OneCharacterClass | pkg/csi_driver/node.go:846-849 | A class of one character matches that character, and negated every other. |
| GlobPatterns.NoSlashIsMatched | pkg/csi_driver/node.go:846-849 | Stars and question marks match no slash. |
| SharedMountSafety.StepKeepsOtherKeys | pkg/csi_driver/node.go:353-356 | A step changes the files and the mount of no key but the one it has locked. |
| SharedMountSafety.LocksAreExact | pkg/csi_driver/node.go:149-152 | In every reachable state the lock set is the disjoint union of the names the RPCs in flight hold, and it is empty when none is in flight. |
| SharedMountSafety.NoNameIsFreedForOthers | pkg/csi_driver/node.go:879-884 | No event changes or frees what an RPC other than the moving one holds. |
| SharedMountBalance.FreeKeyIsBalanced | pkg/csi_driver/node.go:839-926 | In runs without operating-system faults, a key whose lock is free is mounted if and only if some pod refers to it: no leak and no early teardown. |
| SharedMountBalance.RunIsSettled | pkg/csi_driver/node.go:353-416 | The inductive invariant behind that: free keys are balanced, and each RPC knows how far its locked key is from balance. |
| SharedMountTenancy.BoundTargetsAreProtected | pkg/csi_driver/node.go:490-497 | Every run of a deployment keeps every bound IAM target referenced over a mounted shared mount, if and only if no other target has a pod UID that matches its pod or the same pod and key, and failed binds leave nothing bound (or there is no IAM volume). |
| SharedMountTenancy.LiteralPodsSeparate | pkg/csi_driver/node.go:846-849 | For pod UIDs without pattern characters that condition says that no pod with an IAM volume has a second target. |
| SharedMountTenancy.FailedBindTakesReference | pkg/csi_driver/node.go:402-413 | For any pod and key with two targets, a failed bind of the second leaves the first bound with no reference. |
| SharedMountTenancy.RunKeepsTenants | pkg/csi_driver/node.go:397-414 | The inductive invariant for the positive half, over all interleavings and other faults. |
| SharedMountTenancy.NeighbourTearsDown | pkg/csi_driver/node.go:846-870 | For any pod, key and two targets, unpublishing the second target unmounts the shared mount while the first is bound, when the pod UID in its path matches the pod. |
| SharedMountTenancy.DirtyBindLosesReference | pkg/csi_driver/node.go:402-413 | For any pod, key and target, a bind that fails halfway leaves the target bound with no reference on the key. |
| SharedMountTenancy.PublishAlone | pkg/csi_driver/node.go:332-417 | From any idle state, the events of one publish in which every call succeeds end idle, with one more reference, the key mounted and the target bound to it, and nothing else changed. |
| SharedMountPublish.PlainPublishAlone | pkg/csi_driver/node.go:268-325 | From any idle state, a publish of a plain volume in which every call succeeds answers success and binds the target to its staging path if it was not bound, and changes nothing else. |
| SharedMountPublish.RepublishAlone | pkg/csi_driver/node.go:332-417 | From any idle state, publishing an IAM volume again on a bound target writes the reference and the token, mounts the key if needed, and leaves the target bound as it was. |
| SharedMountPublish.FailedMountAlone | pkg/csi_driver/node.go:463-470 | A mount of a key that fails with effect is undone: the key is not mounted, its mount directory is gone, and the answer is failure. |
| SharedMountPublish.FailedBindAlone | pkg/csi_driver/node.go:402-413 | A bind that fails with effect is undone: the target is not bound, the reference is gone, the mount stays, and the answer is failure. |
| SharedMountPublish.FailedOwnershipAlone | pkg/csi_driver/node.go:318-325 | When the ownership cannot be set the target is unbound again, the reference stays, and the answer is failure. |
| SharedMountPublish.PlainRoundTrip | pkg/csi_driver/node.go:236-500 | Publishing a plain volume and unpublishing its path, which names no pod, gives back the whole node. |
| SharedMountReplies.RepliesAreTrue | pkg/csi_driver/node.go:236-500 | In every run a publish that answers success has its target bound, and an unpublish that does has it unbound. |
| SharedMountReplies.OwnershipIsOfBound | pkg/csi_driver/node.go:306-318 | In every run the ownership is set of a bound target only. |
| SharedMountReplies.FailsExactlyWhenFaulted | pkg/csi_driver/node.go:236-500 | In every run an RPC answers failure exactly when one of its steps failed in a way that is to be reported: a call, the request's data, a taken lock or a malformed pattern. |
| SharedMountUnpublish.UnpublishAlone | pkg/csi_driver/node.go:477-500 | From any idle state, the events of one unpublish in which every call succeeds end idle, with the target unbound, all references that match the pod gone and exactly those keys torn down that lost their last reference; the answer is success exactly when the pod UID is a well-formed pattern. |
| SharedMountUnpublish.UnpublishNobody | pkg/csi_driver/node.go:477-500 | From any idle state, unpublishing a path that names no pod answers success and unbinds the target, and changes nothing else. |
| SharedMountUnpublish.CleanedAllEffect | pkg/csi_driver/node.go:839-877 | Cleaning up a list of markers one by one takes from each key exactly the listed pods, tears it down exactly when none is left, and leaves every other key as it was. |
| SharedMountUnpublish.CleanOne | pkg/csi_driver/node.go:879-926 | The steps for one marker remove the reference and, with the last one, every trace of the key, and give the lock back. |
| SharedMountUnpublish.PublishUnpublishRoundTrip | pkg/csi_driver/node.go:236-500 | From any idle state of a fault-free run, publishing and then unpublishing for a pod that matches no reference there restores every reference set, every mount and every bound target. |
| SharedMountUnpublish.LiteralNewcomer | pkg/csi_driver/node.go:846-849 | For a pod UID without pattern characters that condition says that the pod has no reference yet. |
| Unmount.MountTable.UnmountPath | pkg/csi_driver/unmount.go:104-154 | Succeeds exactly when some attempt detached the path and the directory was removed; says for every pattern of replies whether the mount and the directory are left, and touches no other path. |
| Unmount.StepsAgree | pkg/csi_driver/unmount.go:104-154 | The single steps used in the interleavings come to the same success, mount and directory as the method. |
| Operations.GetCreateInstanceOp | pkg/cloud_provider/lustre/lustre.go:257-293 | An error exactly when the listing breaks before a match, and otherwise the first creation of the instance in the whole log. |
| Operations.IsOperationInProgress | pkg/cloud_provider/lustre/lustre.go:295-328 | An error exactly when the listing breaks before a match, and otherwise whether a resize of the instance is running. |
| CreateOnce.LocksAreExact | pkg/csi_driver/controller.go:196-199 | In every run, deletes included, the locked names are exactly those of the creations in flight, no two share one, and none is locked when nothing is in flight. |
| CreateOnce.AtMostOneCreation | pkg/csi_driver/controller.go:196-254 | In every run with timeouts, lost replies, failed operations and listings in any order, at most one creation of an instance that is not deleted is accepted. |
| CreateOnce.ListingDecides | pkg/csi_driver/controller.go:225-233 | No visible instance and no failed creation found together mean that a creation was never asked for, in any order of the log. |
| CreateOnce.FailedCallSendsNothing | pkg/csi_driver/controller.go:201-248 | In every run a call that fails before the creation ends the RPC with nothing sent. |
| CreateOnce.FailedSendEnds | pkg/csi_driver/controller.go:250-253 | In every run a creation whose call fails ends the RPC, whether or not it was accepted. |
| CreateOnceGuard.StockoutGuardIsLost | pkg/cloud_provider/lustre/lustre.go:257-293 | For any instance, a run with one delete and listings oldest first in which a creation is accepted after one has failed. |
| CreateOnceGuard.GuardKeptExactlyWithoutDeletes | pkg/csi_driver/controller.go:225-233 | For runs that list oldest first and delete only instances of a given set, no creation of an instance is ever accepted after one has failed, if and only if the instance is not in the set. |
| CreateOnceGuard.UndeletedKeepsGuard | pkg/csi_driver/controller.go:225-233 | In every run with listings in any order, no creation of an instance that is not deleted is accepted after one has failed. |
| CreateOnceGuard.CreatedOnceExactlyWithoutDeletes | pkg/csi_driver/controller.go:225-254 | For runs that delete only instances of a given set, with listings in any order, an instance is created at most once in all of them if and only if it is not in the set. |
| CreateVolume.CompareInstances | pkg/cloud_provider/lustre/lustre.go:470-494 | The mismatches are exactly the fields that differ, each once; none means equal name, project, location, size and network. |
| CreateVolume.Controller.CreateVolume | pkg/csi_driver/controller.go:170-262 | Reply and new backend are those of the specification for every pattern of call results, and instances stay filed under their own names. |
| CreateVolume.CreatedIsThere | pkg/csi_driver/controller.go:201-273 | A reply with a volume means that the backend holds an active instance that matches the request and is what the reply describes. |
| CreateVolumeReplies.CreatesWhatIsAsked | pkg/csi_driver/controller.go:170-273 | A new volume, when every call succeeds, is less than one GiB below the size asked for, has the address, the predefined or else the generated name, and is stored with the network of the request. |
| CreateVolumeReplies.ExistingIsAnswered | pkg/csi_driver/controller.go:205-223 | For an instance that is there nothing changes, and the answer is the volume, a refusal or not ready exactly as its project, name, network, whole GiB and state agree with the request. |
| CreateVolumeReplies.RefusalChangesNothing | pkg/csi_driver/controller.go:170-253 | A request that is not valid, and a call that fails before a creation is accepted, change nothing and get their own answer. |
| CreateVolumeReplies.AcceptedIsStored | pkg/csi_driver/controller.go:234-254 | A creation that is accepted and does not fail stores one instance that fits the request, records one operation, and is answered with its description when it succeeds. |
| CreateVolumeReplies.AcceptedMayFail | pkg/csi_driver/controller.go:225-253 | A creation that fails leaves no instance and one failed operation, and is answered with failure. |
| CreateVolumeReplies.AnswersAreWithinRequest | pkg/csi_driver/controller.go:264-273 | In every run every volume answered is less than one GiB below its own request. |
| CreateVolumeReplies.AnsweredRequestsAgree | pkg/csi_driver/controller.go:205-223 | In every run two requests for one full name that were both answered agree in whole GiB and in network. |
| CreateVolume.RunKeepsOk | pkg/csi_driver/controller.go:170-262 | The invariant of all runs of calls, late completions and late failures: what was answered for is there as described, creations on record agree with the instances. |
| CreateVolume.RepliesAgree | pkg/csi_driver/controller.go:205-273 | In every run, all successful replies for one full name carry the identical volume. |
| CreateVolume.RepeatIsIdempotent | pkg/csi_driver/controller.go:205-223 | At any later point of a run, a valid request for the full name of a created volume changes nothing, gets the identical volume when GiB and network agree and the instance is active, and is refused when they do not agree. |
| CreateVolume.TimedOutIsFound | pkg/csi_driver/controller.go:205-223 | After a creation that timed out and any events in between, once the instance is active an agreeing request gets the volume that was asked for then, and nothing is created again. |
| CreateVolume.FailedCreationIsFinal | pkg/csi_driver/controller.go:225-233 | Once a creation of a name has failed, no request for the name creates anything or succeeds at any later point of a run without deletes. |
| CreateVolume.VolumeIdLeadsBack | pkg/csi_driver/volume.go:26-44 | The volume ID in a reply, with any suffix, parses back to the project and full name of the instance. |
| Capacity.RequestCapacityMeetsRange | pkg/csi_driver/controller.go:315-341 | A range is refused exactly when no size of at least the minimum fits it; otherwise the answer is positive and within the range. |
| Capacity.RequestCapacityIsRequired | pkg/csi_driver/controller.go:315-341 | The answer is the required size where one is set, and otherwise 9000 GiB. |
| Capacity.RoundingDown | pkg/util/util.go:172-174 | For every positive int64, rounding to GiB and back does not overflow and loses less than one GiB. |
| Capacity.ShortInBytes | pkg/csi_driver/controller.go:609-632 | An instance too small in bytes is never larger in GiB than the size it is resized to. |
| Expand.NeverShrinksWhenRising | pkg/csi_driver/controller.go:585-645 | When requests never decrease, no run shrinks the instance at any point, even when a timed-out resize completes between two calls of a later request. |
| Expand.SmallerRequestShrinks | pkg/csi_driver/controller.go:609-633 | For any two requests in bytes above the present size that differ in whole GiB, a run of these two requests that shrinks the instance. |
| Expand.NeverShrinksExactly | pkg/csi_driver/controller.go:579-646 | For runs whose requests are for sizes in bytes of a given set, in any order and with any limits, no run shrinks the instance if and only if all sizes above its first size agree in whole GiB. |
| Expand.ReportCoversRequest | pkg/csi_driver/controller.go:609-645 | In every run, every successful response is less than one GiB short of its request, and covers it exactly when the instance was large enough already or the request is a whole number of GiB. |
| Expand.ExpandAlone | pkg/csi_driver/controller.go:609-645 | At any point of a run, a request for more in which every call succeeds and the resize completes ends with the whole GiB of the request as the size, one operation, and exactly one response with that size. |
| Expand.ExpandNothing | pkg/csi_driver/controller.go:609-616 | At any point of a run, a request for no more than there is gets exactly one response with what there is, and nothing else changes. |
| Expand.WaitIsAnswered | pkg/csi_driver/controller.go:633-645 | In every run, a waiting request is answered exactly when the call succeeds and its own resize did, with the whole GiB of the request. |
| Expand.RefusedSendsNothing | pkg/csi_driver/controller.go:595-630 | In every run, a failed call, an instance that is not active or a running resize ends the request with nothing sent and no response. |
| FilesystemNames.FilterZonesByRegion | pkg/csi_driver/controller.go:546-561 | Exactly the listed locations that are zones of the region, in order. |
| FilesystemNames.ZoneIsRegionAndSuffix | pkg/util/util.go:160-170 | A location that has a region is the region, a dash and a suffix without a dash. |
| FilesystemNames.RegionExactly | pkg/util/util.go:160-170 | A location has a region if and only if it is three parts with dashes between them, and the region is the first two. |
| FilesystemNames.ExistingNames | pkg/csi_driver/controller.go:519-531 | The nested loops collect exactly the names of the instances in the listed zones of the region. |
| FilesystemNames.GenerateUniqueFilesystemName | pkg/csi_driver/controller.go:503-543 | A predefined name is kept; otherwise the first drawn name not in use in the region, and none exactly when the location is not a zone or the draws run out. |
| FilesystemNames.GeneratedIsFresh | pkg/csi_driver/controller.go:503-543 | A generated name differs from every name in use in any listed zone of the region. |
| FilesystemNames.CoexistingAutoNamesDiffer | pkg/csi_driver/controller.go:503-543 | Over any sequence of creations and deletions, automatically named instances of one region that exist at the same time have different names. |
| FilesystemNames.FreeCandidateExists | pkg/csi_driver/controller.go:563-577 | While fewer than 100000 names are taken some draw gives a free one. |
| FilesystemNames.CandidateForm | pkg/csi_driver/controller.go:563-577 | A candidate is lfs and five decimal digits that read as the number drawn. |
| Routing.IsTableFree | pkg/network/network.go:426-461 | A table may be used exactly when its first rule is for the NIC's address, or it has neither rules nor routes. |
| Routing.FindNextFreeTableID | pkg/network/network.go:464-478 | The least table that may be used, and an error exactly when there is none up to 252. |
| Routing.RouteManager.ConfigureRoute | pkg/network/network.go:269-363 | The new rules and routes for every pattern of call results, with the rule added only when it is missing. |
| Routing.RouteManager.SetUpMultiNic | pkg/csi_driver/node.go:502-527 | The loop over the NICs up to the first failure gives the kernel of the specification. |
| RoutingRuns.RunStaysRouted | pkg/network/network.go:296-346 | After any sequence of set-ups, failed ones included, for every instance set up so far and every NIC, the NIC's own table has a route to the instance's network out of the NIC's link. |
| RoutingRuns.InstancesStayReachable | pkg/network/network.go:296-346 | After any such sequence, for every IPv4 instance set up so far and every NIC, the NIC's own table has a route out of its link to a /16 network in which the instance's address lies. |
| RoutingRuns.V6StaysReachable | pkg/network/network.go:296-346 | An IPv6 instance that was set up is reached by the default route of each NIC's own table. |
| RoutingRuns.TablesAreInRange | pkg/network/network.go:464-478 | After any such sequence a NIC's table is between 100 and 252, and a NIC on an empty kernel is given 100. |
| RoutingRuns.NicsNeverShare | pkg/network/network.go:426-461 | After any such sequence two NICs with different addresses have no table in common. |
| RoutingRuns.TableIsKept | pkg/network/network.go:464-478 | A table a NIC owned at some point of a run is the one it owns, and is given again, at every later point. |
| RoutingRuns.OneTablePerNic | pkg/network/network.go:269-349 | After any such sequence a NIC owns at most one table. |
| RoutingRuns.ForeignTablesAreLeftAlone | pkg/network/network.go:426-461 | No set-up of all NICs at any point of any such sequence, failed or not, changes a table that then holds a foreign rule or route. |
| RoutingRuns.ForeignKernelIsOrderly | pkg/network/network.go:426-461 | Any kernel without rules for the NICs' addresses satisfies the invariant, whatever else is in it. |
| RoutingCapacity.NeverExhausted | pkg/network/network.go:464-478 | While occupied tables and NICs without a table number at most 153, a set-up never reports that the tables have run out. |
| RoutingCapacity.SetUpSucceeds | pkg/csi_driver/node.go:502-527 | With that much room, a set-up in which every call succeeds succeeds, for any valid address. |
| RoutingCapacity.DoneNeedsCalls | pkg/network/network.go:269-349 | A NIC is set up only when every call it needs succeeded and the address is valid; an invalid address writes nothing. |
| RoutingCapacity.ExhaustedExactly | pkg/network/network.go:464-478 | The tables are reported to have run out exactly when none from 100 to 252 may be used. |
| RoutingCapacity.RoomMeansFound | pkg/network/network.go:464-478 | With that much room every NIC finds a table. |
| RoutingCapacity.NoFurtherTables | pkg/csi_driver/node.go:512-525 | Once every NIC has a table, a set-up occupies no further table, whatever fails. |
| RoutingCapacity.RunNeedsNoFurtherTables | pkg/csi_driver/node.go:512-525 | The same over any sequence of set-ups for any number of instances. |
| RoutingCapacity.RunNeeds | pkg/network/network.go:296-346 | Over any sequence of set-ups the occupied tables grow by at most the NICs without a table and the set-ups that failed after writing a route. |
| RoutingCapacity.RunNeverExhausted | pkg/network/network.go:464-478 | While occupied tables, NICs without a table and set-ups that failed half-way number at most 153 over a run, the next set-up does not run out of tables. |
| VolumeIds.ParseOfPrint | pkg/util/util.go:134-155 | A printed ID with any suffix after a colon parses back to its instance if and only if the components are not empty and have no slash or colon. |
| VolumeIds.PrintOfParse | pkg/csi_driver/volume.go:39-44 | Printing an accepted ID gives the ID cut at its first colon, and its components are plain. |
| MountPoints.ParseOfPrint | pkg/csi_driver/node.go:647-654 | A printed mount point parses back to address and name if and only if both are printable. |
| MountPoints.PrintOfParse | pkg/csi_driver/node.go:647-654 | Printing what was parsed gives back the input, and only printable parts are accepted. |
| MountPoints.ExtractOfPrint | pkg/csi_driver/node.go:634-645 | In a source of one line, as every listed one is, the name is found if and only if it has no slash. |
| ProcMounts.FieldOfPrint | vendor/k8s.io/mount-utils/mount_linux.go:744-763 | A mounted source is listed with its escapes, without white space at its ends, and as one field exactly when no other white space is left. |
| ProcMounts.EscapesAreOctal | vendor/k8s.io/mount-utils/mount_linux.go:744-763 | Blank, tab, line break and backslash are listed as their three-digit octal escapes. |
| ProcMounts.ListedShowsName | pkg/csi_driver/node.go:615-645 | The name that was mounted is read off the listed device if and only if it has no slash, no white space and no escaped character and something of the address is left before it. |
| Staging.HasMountWithSameFsName | pkg/csi_driver/node.go:615-630 | An error exactly when some mount does not make up one well-formed line, and otherwise whether some listed device has the name. |
| Staging.NodeMounts.Stage | pkg/csi_driver/node.go:96-208 | The new mount table and the exact condition for success, for every pattern of call results, IAM volumes and the clean-up after a failed mount included; success means the target is mounted unless the volume is an IAM volume. |
| Staging.NodeMounts.Unstage | pkg/csi_driver/node.go:210-234 | Succeeds exactly when the target was detached and its directory removed; the mount is gone exactly when some attempt worked, also when the call fails; no other path is touched. |
| Staging.RunKeepsNames | pkg/csi_driver/node.go:166-203 | Over any sequence of stages, unstages and mounts of others, staged mounts have different names, when the check can read every name that is staged off the listed device or the mount makes every listing fail. |
| Staging.UncleanNameDefeatsCheck | pkg/csi_driver/node.go:615-645 | For any name with a slash, an escaped character or white space that can be listed, a run that stages it at any two targets. |
| Staging.NamesDifferExactlyWhenShown | pkg/csi_driver/node.go:166-203 | For runs that stage only addresses and names of a given set, staged names differ in all of them if and only if the check reads every name off the listed device of its mount, unless that mount makes every listing fail. |
| Staging.NamesDifferExactlyWhenClean | pkg/csi_driver/node.go:166-203 | The same in characters, for every address and name: no slash, no white space and no escaped character in a name, something left of the address, or a mount that cannot be listed. |
| LnetNetworks.BuildLnetNetworkString | pkg/kmod_installer/kmod_installer.go:325-336 | The loop writes the primary NIC first and then the others in order, or the primary alone when multi-NIC is disabled. |
| LnetNetworks.WrittenForm | pkg/kmod_installer/kmod_installer.go:325-336 | The string begins with tcp0, a parenthesis and the primary NIC, and ends with a parenthesis. |
| LnetNetworks.WrittenOrder | pkg/kmod_installer/kmod_installer.go:325-336 | For names without a comma, the string lists the primary NIC first and then exactly the additional ones in order. |
| LnetNetworks.AdditionalNics | cmd/csi_driver/main.go:125-130 | The loop keeps the NICs other than the default one, in order. |
| LnetNetworks.WrittenIsReadBack | pkg/kmod_installer/kmod_installer.go:301-310 | The driver reads back exactly the additional NICs the installer meant, in order, if and only if no name that was written has a comma, whatever white space surrounds the string. |
| LnetNetworks.BlankFileMeansNone | pkg/kmod_installer/kmod_installer.go:111-145 | A missing or blank parameter file yields the default NIC and no additional one. |
| Text.SpacesOfAscii | pkg/kmod_installer/kmod_installer.go:130-145 | Blank, tab and line ends are white space to be trimmed, and the printing characters of ASCII are not. |
| ParameterKeys.NormalizeKeys | pkg/csi_driver/utils.go:70-102 | For every order of the keys, success exactly when all keys are known and no two share a normal form; the values are kept, and exactly the unknown keys are reported. |
| ParameterKeys.OutputIsUnique | pkg/csi_driver/utils.go:70-102 | The output does not depend on the order in which the keys were seen. |
| ParameterKeys.SecondPassChangesNothing | pkg/csi_driver/utils.go:70-102 | A second pass accepts an output and gives it back. |
| ParameterKeys.NormalizeIsIdempotent | pkg/csi_driver/utils.go:142-148 | Normalising a key twice is normalising it once. |
| ParameterKeys.AlikeExactly | pkg/csi_driver/utils.go:142-148 | Two keys have the same normal form if and only if they differ only in case, dashes and underscores. |
| ParameterKeys.KubernetesKeysAreKnown | pkg/csi_driver/utils.go:70-102 | A key that is not supported is accepted exactly when its normal form begins with one of the two Kubernetes prefixes. |

## Left out

- CreateVolume.Controller.CreateVolume: zone, network name, labels, description and throughput are taken as resolved or left out, because they are short checks and regular expressions that decide none of the properties.
- CreateVolume.VolumeIdLeadsBack: only for project, location and name without slash or colon, as `VolumeIds.ParseOfPrint` requires; the backend admits no other names.
- FilesystemNames.CoexistingAutoNamesDiffer: creations do not overlap; two that overlap hold different locks and may draw the same name.
- MountPoints.ExtractOfPrint: one-line sources only, because a field of the mount table has no line break; `ProcMounts.ListedShowsName` covers every address.
- Staging.RunKeepsNames: stages do not overlap; overlapping stages of different targets hold different locks.
- RoutingRuns.RunStaysRouted: set-ups do not overlap, because no lock covers two of them; kernel route metrics are not distinguished.
- Expand.NeverShrinksWhenRising: one volume ID; several IDs of one instance hold different locks.
- CreateVolume.RepeatIsIdempotent: calls do not overlap, and nothing is deleted or resized in between; `CreateOnce` treats overlapping calls and deletes.
- ParameterKeys.NormalizeKeys: letters are lowered as in ASCII; the order of the reported keys is left open.
- Exclusion between create and delete or expand is not claimed: they lock different names.
- Created sizes of at least the required bytes are not claimed: sizes are rounded down to GiB.
- No leaked shared mount after a failed bind or a failed unmount is claimed: the code does not retry that clean-up.
- Effects of a umount process that is still stuck after its timeout, and recovery after a crash or reboot.
- The hash of a key, the parsing, content and expiry of tokens: a key is a value, a bad token is a choice of the environment, and of a token file only its presence is modelled.
- Deletion, validation of capabilities, volume statistics and the identity service: short branches.
- The upcall server, the host proxy, metrics, authentication, metadata and the label controller: plumbing around other systems.
- Installer command lines, endpoint parsing, error-code mapping, deployment files and the test tree.
