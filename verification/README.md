# Verified model of the Harvester network controller

This project models the parts of the Harvester network controller whose correctness is hard to see from any
single function, and proves what they guarantee for every input, every run and every failure of the kernel or
the API server.

* **VLAN sets and bridge reconciliation** (`VlanIds`, `VlanIDSets`, `BridgePorts`, `Nads`, `DeviceNames`,
  `Reconcile`, `Refusals`, `VlanAnnotations`). A cluster network's uplink carries the VIDs that its network attachment
  definitions (NADs) and the host's own sub-interfaces ask for. The agent computes the difference to what the
  kernel has and applies it VID by VID; the manager records the set, printed and hashed, on the cluster network.
* **The VlanConfig lifecycle** (`Mtus`, `Webhooks`, `Lifecycle`, `NadMtus`, `StatusNames`, `VlanStatuses`,
  `Overlaps`, `JointRuns`, `HostNetworks`). Webhooks admit VlanConfigs, cluster networks, NADs and host networks; the manager keeps MTU and
  readiness of a cluster network in step with its VlanConfigs; one agent per node keeps a VlanStatus for each
  VlanConfig it has set up. Each protocol is a transition system, and the results hold in every reachable state.
* **Bonds** (`Kernel`, `Bonds`). The agent changes the kernel's link table towards a configured bond with configured
  slaves, and takes it down again, with early returns, collected errors and retries.

`GoStrings` holds the few operations of Go's standard library that the names and annotations depend on.

## Reading the model

* Kernel and API failures are parameters: a function from the number of the call, and for a bridge port its VID, to
  the kernel's answer, or a flag per API write. Every result about a run is therefore about all patterns of failures. A failed call changes nothing.
* Each admission and each API write is one step, and caches are current. Handlers of the agents are not atomic: the
  tasks of different VlanConfigs and nodes interleave between their API writes. Letting go of a VlanStatus (the
  manager's removal handler and the removal itself) is one step.
* Deleted objects stay, marked, until they are gone. The API server keeps names unique and deletion marks for ever.
* Listings of a cache come in any order; a result that depends on one is stated for all orders.
* SHA-256 and CRC-32 are arbitrary functions, given as parameters.
* JSON decoding is left to the caller: a NAD carries its decoded configuration, or nothing if it does not decode.
  Trunk entries are present; the validator accepts a null entry that the VID set builder would dereference.

## Results that contradict the obvious expectation

Each is stated as it is in the code, with the exact condition under which the expected property holds.

* A failed walk over VIDs is swallowed, so that a reconciliation reports success without having converged. It
  converges exactly if the kernel accepts every call of the round (`ReconcileConverges`). Since a walk ascends and
  stops at the first refusal, a kernel that always refuses some VIDs keeps these and all higher ones from being added
  or removed, for ever and without an error (`RefusedVidsBlock`, `DoneWithoutConverging`); refusals that end are made
  up for (`RefusalsRunOut`).
* A host sub-interface is recognised exactly if the cluster network's name has at most 12 characters and no dot, yet
  names with dots are admitted (`SubInterfaceRecovered`, `DottedNameLosesSubInterface`, `SubInterfaceLost`).
* The manager cannot create a missing cluster network, because its own webhook refuses the MTU annotation
  (`EnsureClusterNetwork`). The webhook also refuses every other write to a cluster network, such as a new readiness,
  exactly while the network does not announce the MTU of its live VlanConfigs, as between an admitted MTU change and
  its handling (`OtherWritesExactly`, `ReadinessRefusedRun`).
* VlanConfigs are admitted into a cluster network that is being deleted, which is the only way in which a VlanConfig
  can lose its network, and with it the announcement of its MTU (`NetworksStandExactly`, `AnnouncedOnceHandled`,
  `LostNetworkRun`).
* A VlanConfig that is the source of a network's MTU and moves to another network leaves the MTU behind, and no later
  handling of it cleans up. Beside that, a source is lost exactly if it goes before its removal is handled or a request
  writes another one (`SourcesStandExactly`, `MigrationLeavesMtu`).
* The overlap check reads stored statuses instead of VlanConfigs. A new VlanConfig can share a
  node with a live one exactly while no foreign status of the network is stored there (`OverlapAdmittedExactly`,
  `SharedNodeRun`), and likewise an update that adds a node (`AddedNodeAdmittedExactly`). None ever do if requests
  wait for the agents, whose handlers store all statuses exactly if no two VlanConfigs have one status name
  (`PatientRunKeepsDisjoint`, `HandlersEstablishExactly`).
* A status keeps the owner reference of the VlanConfig that created it when another one writes over it, and only then
  do owner and label differ; when the first VlanConfig goes, the other one loses its status (`OwnersAgreeThroughout`,
  `InheritedStatusLost`, `SharedNodeLosesStatus`).
* Status names of two networks can coincide exactly if one name continues the other after a dash; a Ready network can
  then end up without a status, and the VlanConfigs that lead there are admitted (`StatusNameCollision`,
  `ClashLosesStatus`, `ClashIsAdmitted`).
* A NAD can be refused for the MTU that the mutating webhook has just written (`PatchedNadPasses`,
  `UnlabelledRefusedRun`, `LabelledRefusedRun`).
* A host network that is the underlay rejects all updates except those that turn the underlay off (`UnderlayBlocksItself`).
* A NIC that is dropped from a bond in the same change that makes the bond be created again is not brought up
  (`EnsureBond`, `DroppedNicStaysDown`), and what a half-failed teardown leaves behind is never removed (`RemoveVlan`,
  `HalfTornDownStays`).
* A NIC that is named twice is taken down and enslaved again each time a settled bond is ensured; masters never change,
  but only without repetition does nothing change at all (`EnsureBond`). This takes for granted that the kernel
  accepts the second enslaving; with a bonding driver that refuses a device in use, EnsureBond fails there instead and brings the NIC up again.

## Model

| member | source | states |
|---|---|---|
| `GoStrings.Itoa` | pkg/utils/vlan.go:107-107 | decimal digits only, whose value is the number |
| `GoStrings.AtoiItoa` | pkg/network/iface/link.go:278-278 | reading a printed number gives it back, for every number that fits 64 bits |
| `GoStrings.SplitJoin` | pkg/utils/vlan.go:111-111 | splitting joined parts gives the parts back when none contains the separator |
| `GoStrings.PrefixUpToSeparator` | pkg/utils/bridge.go:53-55 | a prefix ending at the first separator determines what precedes it |
| `GoStrings.SuffixAfterSeparator` | pkg/utils/bridge.go:49-51 | a separator-free suffix determines what precedes the last separator |
| `VlanIds.Sorted` | pkg/utils/vlan.go:105-110 | strictly ascending, with exactly the elements of the set |
| `VlanIds.AscendingUnique` | pkg/utils/vlan.go:105-110 | a set has one ascending enumeration, so walk order and printed form are functions of the set |
| `VlanIds.StorableCardinality` | pkg/utils/vlan.go:20-20 | a VLAN set has at most 4094 members, so its 32-bit count cannot wrap |
| `VlanIds.PrintedParsed` | pkg/utils/vlan.go:95-112 | a parser recovers the exact VID set from the printed form |
| `VlanIds.PrintedInjective` | pkg/utils/vlan.go:95-112 | two VID sets print the same if and only if they are equal |
| `VlanIds.PrintedExample` | pkg/utils/vlan.go:95-112 | the set of 10 and 2 prints as "2,10" |
| `VlanIDSets.VlanIDSet.Trunk` | pkg/utils/vlan.go:195-201 | an empty set in trunk mode |
| `VlanIDSets.VlanIDSet.Single` | pkg/utils/vlan.go:204-212 | a set in single-VID mode |
| `VlanIDSets.NewFromSingleVID` | pkg/utils/vlan.go:204-212 | succeeds exactly for VIDs 0..4094 and holds that VID, none for 0 |
| `VlanIDSets.VlanIDSet.SetInRange` | pkg/utils/vlan.go:41-57 | adds the VID in trunk mode, replaces it in single mode, ignores 0; the count stays the number of set slots |
| `VlanIDSets.VlanIDSet.SetVID` | pkg/utils/vlan.go:26-32 | fails exactly outside 0..4094 and then changes nothing |
| `VlanIDSets.VlanIDSet.UnsetVID` | pkg/utils/vlan.go:60-67 | removes the VID in trunk mode and keeps the count right |
| `VlanIDSets.VlanIDSet.Append` | pkg/utils/vlan.go:70-93 | union with a set of either mode; fails exactly on a single-mode target |
| `VlanIDSets.VlanIDSet.VidSetToString` | pkg/utils/vlan.go:95-112 | the printed form of the VIDs in either mode; the array writes are in bounds |
| `VlanIDSets.VlanIDSet.PrintSlots` | pkg/utils/vlan.go:103-111 | joins the ascending enumeration of the bitmap |
| `VlanIDSets.VlanIDSet.GetVlanCount` | pkg/utils/vlan.go:145-153 | the number of VIDs in either mode |
| `VlanIDSets.VlanIDSet.Diff` | pkg/utils/vlan.go:115-136 | the two one-sided differences within 2..4094; fails exactly on a missing or single-mode operand |
| `VlanIDSets.VlanIDSet.WalkVIDs` | pkg/utils/vlan.go:156-180 | calls back on the VIDs in 2..4094 in ascending order up to the first failure, in either mode |
| `VlanIDSets.VlanIDSet.ConvertToTrunkMode` | pkg/utils/vlan.go:183-192 | changes neither the VIDs, and so neither printed form nor count, nor the walk order |
| `BridgePorts.BridgePort.Apply` | pkg/network/iface/link.go:42-67 | VIDs 0 and 1 are skipped, a refused call changes nothing, an accepted one exactly one VID |
| `Nads.ValidIsDumpable` | pkg/utils/nad.go:383-400 | a valid configuration names no VID out of range |
| `Nads.ValidExactly` | pkg/utils/nad.go:343-400 | which access VLANs, trunk ranges and trunk IDs are valid |
| `Nads.DumpVlanIDSet` | pkg/utils/nad.go:402-426 | succeeds exactly if every named VID is in range, with exactly the named non-zero VIDs |
| `Nads.NewVlanIDSetFromNadList` | pkg/utils/nad.go:429-458 | the union over the live bridge NADs; fails exactly if a live NAD does not decode or names a VID out of range |
| `Nads.NadListOrderIrrelevant` | pkg/utils/nad.go:436-455 | neither order nor repetition changes the result or its failure |
| `Nads.ValidListSucceeds` | pkg/utils/nad.go:429-458 | a list of live NADs that pass the admission check never fails |
| `Nads.UntypedTrunkNad` | pkg/utils/nad.go:482-484 | a live NAD without a CNI type counts as a bridge NAD; trunk ranges include both ends |
| `Nads.OtherNads` | pkg/utils/nad.go:436-455 | a NAD that is being deleted or belongs to another CNI asks for nothing; a live one that does not decode makes the list fail |
| `Nads.HasTrunkVlanID` | pkg/utils/nad.go:649-659 | true exactly if a trunk entry names the VID by ID or range |
| `Nads.IsVlanOverlapping` | pkg/utils/nad.go:661-670 | for a valid NAD, membership of the storage VLAN in its VID set; an untagged or trunk storage network overlaps with access VLAN 0 |
| `DeviceNames.BridgeNameRoundTrip` | pkg/utils/bridge.go:71-99 | a bridge name leads back to its network exactly for names of 1 to 12 characters |
| `DeviceNames.GetManuallyConfiguredVlans` | pkg/network/iface/link.go:266-289 | the VIDs of the recognised link names, in order |
| `DeviceNames.ManualVidsMember` | pkg/network/iface/link.go:266-289 | a VID is returned exactly if some link name stands for it |
| `DeviceNames.SubInterfaceAttribution` | pkg/network/iface/link.go:266-289 | a sub-interface belongs to its own network and to no other one, dotted or not |
| `DeviceNames.SubInterfaceRecovered` | pkg/network/iface/link.go:266-289 | the host device is read back exactly if the name has at most 12 characters and no dot |
| `DeviceNames.DottedNameLosesSubInterface` | pkg/utils/clusternetwork.go:14-19 | the admitted network "a.b" does not see its sub-interface |
| `DeviceNames.VlanDeviceInjective` | pkg/utils/bridge.go:49-51 | device names determine network and VID |
| `Reconcile.WalkAppliesPrefix` | pkg/network/vlan/vlan.go:105-130 | a walk applies a prefix of its VIDs, succeeds exactly if it is all of them, and passes through no other states |
| `Reconcile.WalkStopsAtRefusal` | pkg/utils/vlan.go:156-180 | the calls of a walk are accepted up to the one it stops at, which is refused |
| `Reconcile.ReconcileStates` | pkg/controller/agent/clusternetwork/controller.go:84-102 | every intermediate state lies between intersection and union of old and wanted VIDs, VIDs 0 and 1 are untouched, each accepted call is one VID closer |
| `Reconcile.ReconcileConverges` | pkg/controller/agent/clusternetwork/controller.go:84-102 | the distance shrinks by the number of accepted calls; the wanted VIDs are reached if and only if the kernel accepts every call that the round plans |
| `Reconcile.MovesExactly` | pkg/controller/agent/clusternetwork/controller.go:84-102 | a round brings the port closer if and only if the kernel accepts its first addition or its first removal |
| `Reconcile.RoundsConverge` | pkg/controller/agent/clusternetwork/controller.go:46-105 | if the kernel lets every round move, the wanted VIDs are reached in as many rounds as VIDs differ |
| `Refusals.RefusedVidsBlock` | pkg/network/vlan/vlan.go:105-130 | for a kernel that refuses a fixed set of VIDs, one round or many leave exactly the missing VIDs at or above the least refused missing one, likewise for surplus; it converges if and only if no such VID is refused |
| `Refusals.DoneWithoutConverging` | pkg/network/vlan/vlan.go:112-115 | VIDs 10 and 20 are wanted and 20 is always refused: after any number of rounds the next handler is done again, and from the first on 10 is there and 20 is not |
| `Refusals.RefusalsRunOut` | pkg/controller/agent/clusternetwork/controller.go:46-105 | whichever calls are refused, more rounds than refused calls reach the wanted VIDs |
| `Reconcile.ToVlanIDSet` | pkg/network/iface/link.go:117-137 | the kernel's VIDs without 0; nil without an entry; fails on a VID out of range |
| `Reconcile.WantedVlans` | pkg/controller/agent/clusternetwork/controller.go:62-82 | the NADs' VIDs together with those of the host's sub-interfaces |
| `Reconcile.DesiredExactly` | pkg/controller/agent/clusternetwork/controller.go:62-82 | a managed VID is wanted if and only if a live bridge NAD names it or a link on the host stands for it |
| `Reconcile.OnChange` | pkg/controller/agent/clusternetwork/controller.go:46-105 | exactly when it skips, fails or is done; done means one round towards the wanted VIDs, converged or not, and without refusals the port then has exactly the managed VIDs that a live bridge NAD names or a link stands for; otherwise nothing changes |
| `Reconcile.SubInterfacePreserved` | pkg/controller/agent/clusternetwork/controller.go:68-89 | the VID of a host sub-interface is on the uplink in every state of a reconciliation |
| `Reconcile.SubInterfaceLost` | pkg/controller/agent/clusternetwork/controller.go:68-89 | under any other name, if no NAD and no other link asks for the VID, a reconciliation without refusals removes it |
| `VlanAnnotations.WithVlanSet` | pkg/utils/clusternetwork.go:28-37 | records string and hash under their keys and keeps all other annotations |
| `VlanAnnotations.RecordedSetIsUnique` | pkg/utils/clusternetwork.go:21-26 | annotations record at most one VID set, so an update is skipped exactly if the set is unchanged |
| `VlanAnnotations.UpdateClusterNetworkVlanSet` | pkg/controller/manager/nad/controller.go:266-300 | each outcome exactly; afterwards the NADs' VID set is recorded; skipped exactly if it was recorded before |
| `Mtus.EqualMTUsIsEquivalence` | pkg/utils/mtu.go:18-20 | MTU equality is the equivalence "same once 0 is read as the default" |
| `Mtus.PrintedMtuReadsBack` | pkg/utils/mtu.go:22-31 | a valid MTU survives printing and parsing |
| `Webhooks.MutatedOnCreate` | pkg/webhook/vlanconfig/mutator.go:32-45 | labels the VlanConfig with its network and leaves the spec alone |
| `Webhooks.MutatedOnUpdate` | pkg/webhook/vlanconfig/mutator.go:47-91 | a migration that leaves a right label alone ends up with the new right label |
| `Webhooks.ByIndex` | cmd/webhook/main.go:228-238 | the VMIs that have the network name |
| `Webhooks.WhoUseNad` | pkg/utils/vmi.go:23-64 | exactly the VMIs that use the NAD by qualified name, or by bare name in its namespace, on the given nodes |
| `Webhooks.WhoUseNads` | pkg/utils/vmi.go:68-79 | exactly the VMIs that use one of the NADs |
| `Webhooks.UsesByName` | pkg/utils/vmi.go:23-64 | a bare network name counts from the NAD's own namespace only, the qualified name from everywhere |
| `Webhooks.CheckVmi` | pkg/webhook/vlanconfig/validator.go:224-245 | passes exactly if no VMI on the nodes uses a NAD of the network |
| `Webhooks.ValidateMTU` | pkg/webhook/vlanconfig/validator.go:263-292 | passes exactly if the MTU is valid and equals that of all other live VlanConfigs with the label |
| `Webhooks.CheckOverlaps` | pkg/webhook/vlanconfig/validator.go:201-221 | passes exactly if no status on a matched node belongs to another VlanConfig |
| `Webhooks.CheckNetworkNadsAttached` | pkg/webhook/vlanconfig/validator.go:295-312 | passes exactly if no node is affected or no live system network NAD is attached |
| `Webhooks.ValidateCreate` | pkg/webhook/vlanconfig/validator.go:57-90 | passes exactly the admissible VlanConfigs |
| `Webhooks.ValidateUpdate` | pkg/webhook/vlanconfig/validator.go:92-159 | passes exactly the admissible updates; no VMI on the old network runs on a node that loses or changes its uplink |
| `Webhooks.UpdateAllowedExactly` | pkg/webhook/vlanconfig/validator.go:92-159 | a live update passes if and only if it is right in itself, every VMI on the old network keeps node, network and uplink, and so does every node if a live system NAD is attached |
| `Webhooks.MtuBounds` | pkg/webhook/vlanconfig/validator.go:263-292 | an admitted MTU is 0 or within 576..9000 |
| `Webhooks.ValidateDelete` | pkg/webhook/vlanconfig/validator.go:161-184 | passes exactly if a controller asks or the network is not the management network, no VMI on the network runs on a matched node, and no live system NAD is attached while a node is matched |
| `Webhooks.StorageNadBlocksDelete` | pkg/webhook/vlanconfig/validator.go:295-312 | a live storage or RWX network NAD keeps a VlanConfig that matches a node from being deleted |
| `Webhooks.OrdinaryNadsDoNotBlock` | pkg/webhook/vlanconfig/validator.go:295-312 | NADs outside the system namespace do not count for that |
| `Webhooks.CheckMTUOfUpdatedClusterNetwork` | pkg/webhook/clusternetwork/validator.go:144-177 | passes exactly if the network is the management network, or the announced MTU reads and equals that of all live VlanConfigs with the label |
| `Webhooks.MgmtMtuExactly` | pkg/webhook/clusternetwork/validator.go:182-228 | the MTU of the management network is frozen exactly while a VMI or a system NAD depends on it |
| `Lifecycle.StepKeepsInv` | pkg/webhook/vlanconfig/validator.go:57-149 | every request, handler and disappearance keeps labels, MTU equality and MTU synchronisation |
| `Lifecycle.AdmissionInvariant` | pkg/webhook/vlanconfig/validator.go:263-292 | in every reachable state live VlanConfigs carry their network as label, valid MTUs, and equal MTUs within a network |
| `Lifecycle.MtuInSync` | pkg/controller/manager/vlanconfig/controller.go:91-143 | in every reachable state a live network with one handled live VlanConfig announces the MTU of all its live VlanConfigs |
| `Lifecycle.ChangeHandlerNeverRefused` | pkg/controller/manager/vlanconfig/controller.go:106-126 | in every reachable state the webhook accepts the change handler's write |
| `Lifecycle.RemoveHandlerNeverRefused` | pkg/controller/manager/vlanconfig/controller.go:255-283 | in every reachable state the webhook accepts the removal handler's write, for every candidate it may choose |
| `Lifecycle.HandedOverOnRemoval` | pkg/controller/manager/vlanconfig/controller.go:194-286 | when a VlanConfig whose handling wrote the annotation is deleted and handled, source and MTU become those of another live VlanConfig, or both are cleared if there is none |
| `Lifecycle.RemovalHandsOver` | pkg/controller/manager/vlanconfig/controller.go:221-283 | the same for any state in which the removed VlanConfig is the source |
| `Lifecycle.RemovalOfAnother` | pkg/controller/manager/vlanconfig/controller.go:194-220 | the removal of a VlanConfig that is not the source changes no network |
| `Lifecycle.SourcesStandExactly` | pkg/controller/manager/vlanconfig/controller.go:106-126 | a step keeps the source of every network a stored VlanConfig of it if and only if none migrates away or goes unhandled, and no request writes another one |
| `Lifecycle.MigrationLeavesMtu` | pkg/controller/manager/vlanconfig/controller.go:91-143 | a source that migrates leaves annotation and source behind, whatever is handled later |
| `Lifecycle.OtherWritesExactly` | pkg/webhook/clusternetwork/validator.go:144-177 | a write that keeps the MTU annotation is accepted if and only if the network announces the MTU of its live VlanConfigs |
| `Lifecycle.MtuChangeBlocksOtherWrites` | pkg/webhook/clusternetwork/validator.go:165-174 | after an admitted MTU change on a network that announced the old one, they are refused |
| `Lifecycle.HandlingUnblocksOtherWrites` | pkg/controller/manager/vlanconfig/controller.go:106-126 | after handling any live VlanConfig of the network they are accepted |
| `Lifecycle.ReadinessRefusedRun` | pkg/controller/manager/vlanconfig/controller.go:145-163 | a concrete run of admitted requests after which the network cannot become Ready until the VlanConfig is handled again |
| `Lifecycle.NetworksStandExactly` | pkg/webhook/clusternetwork/validator.go:78-114 | a step keeps the network of every live VlanConfig standing if and only if it admits none into a network being deleted |
| `Lifecycle.NetworksStandForever` | pkg/webhook/clusternetwork/validator.go:78-114 | so does every run that admits none |
| `Lifecycle.DeletableNetworks` | pkg/webhook/clusternetwork/validator.go:78-114 | only networks without live VlanConfigs and NADs are deleted, never the management network; an unused one is |
| `Lifecycle.AnnouncedOnceHandled` | pkg/controller/manager/vlanconfig/controller.go:91-143 | in every such run, once a live VlanConfig has been handled, its network announces the MTU of all its live VlanConfigs for as long as it keeps network and uplink |
| `Lifecycle.RecreatedNetworkForgets` | pkg/webhook/clusternetwork/validator.go:131-141 | a network deleted under a VlanConfig and created again announces the default MTU instead |
| `Lifecycle.LostNetworkRun` | pkg/webhook/vlanconfig/validator.go:70-73 | a concrete run of admitted requests in which that happens to a VlanConfig that was handled |
| `Lifecycle.Manager.EnsureClusterNetwork` | pkg/controller/manager/vlanconfig/controller.go:91-143 | takes the manager's step, ignores exactly deleted and management VlanConfigs, is refused if the network is missing, and succeeds otherwise if the API does |
| `Lifecycle.Manager.OnVlanConfigRemove` | pkg/controller/manager/vlanconfig/controller.go:194-286 | takes the manager's step for some candidate, and is never refused in a reachable state |
| `Lifecycle.SelectCandidate` | pkg/controller/manager/vlanconfig/controller.go:221-253 | an eligible VlanConfig, with a non-zero MTU if there is one, none only if there is none |
| `NadMtus.PatchedNadPasses` | pkg/webhook/nad/validator.go:238-275 | the patched NAD passes for all listing orders if and only if there is an annotation or all VlanConfigs that either webhook may pick agree |
| `NadMtus.AnnotatedMtuRules` | pkg/webhook/nad/mutator.go:223-296 | on an annotated network the patch writes the annotated MTU and nothing else, and the check passes if and only if the NAD has it |
| `NadMtus.UnannotatedMtuRules` | pkg/webhook/nad/validator.go:238-275 | on another network both go by the first listed VlanConfig, and by the default without one |
| `NadMtus.LabelledNadPasses` | pkg/webhook/nad/mutator.go:223-296 | it passes for a labelled NAD while no VlanConfig of the network is being deleted |
| `NadMtus.UnlabelledNadRefused` | pkg/webhook/nad/validator.go:255-275 | it is refused for a NAD without a label on an unannotated network with another MTU than the default |
| `NadMtus.UnlabelledRefusedRun` | pkg/webhook/nad/validator.go:255-275 | a run of admitted requests after which that happens |
| `NadMtus.LabelledRefusedRun` | pkg/webhook/nad/mutator.go:223-296 | a run after which a labelled NAD is refused for some listing orders, because a VlanConfig with another MTU is still being deleted |
| `StatusNames.StatusNameCollision` | pkg/utils/name.go:12-23 | for some nodes the status names of two networks coincide if and only if one continues the other after a dash |
| `VlanStatuses.StepKeepsInv` | pkg/controller/agent/vlanconfig/controller.go:81-135 | every step of every task, failed or not, and every deletion by the node handler or the garbage collector keeps statuses consistent and single |
| `VlanStatuses.OneLiveStatus` | pkg/controller/agent/vlanconfig/controller.go:342-419 | in every interleaving with failures and deletions a VlanConfig has at most one live status on a node, and labels, fields and name agree |
| `VlanStatuses.OwnersAgreeExactly` | pkg/controller/agent/vlanconfig/controller.go:349-366 | a step keeps owner references and labels in agreement if and only if it does not write over the status of another VlanConfig |
| `VlanStatuses.OwnersAgreeThroughout` | pkg/controller/agent/vlanconfig/controller.go:349-366 | they agree in every state of a run if and only if no step of it does that |
| `VlanStatuses.InheritedStatusLost` | pkg/controller/agent/vlanconfig/controller.go:357-364 | a run in which the only status of a VlanConfig is deleted along with another VlanConfig |
| `VlanStatuses.ReadyOnlyWithStatus` | pkg/controller/manager/vlanconfig/controller.go:145-192 | among networks whose names do not clash, one is Ready only while a status labelled with it is stored |
| `VlanStatuses.VanishReadyExactly` | pkg/controller/manager/vlanconfig/controller.go:164-192 | when a status goes, its network stays Ready if and only if another status of it is stored |
| `VlanStatuses.MarkReadyExactly` | pkg/controller/manager/vlanconfig/controller.go:145-162 | a live status makes exactly its network Ready |
| `VlanStatuses.NodeDeleteRemoves` | pkg/controller/manager/node/controller.go:297-307 | the node handler removes that status and no other |
| `VlanStatuses.ClashLosesStatus` | pkg/controller/agent/vlanconfig/controller.go:468-470 | for any clashing names a given run of two agents leaves a Ready network without a status |
| `Overlaps.ClashIsAdmitted` | pkg/webhook/vlanconfig/validator.go:201-221 | the two VlanConfigs of that run pass the webhook while no status is stored |
| `Overlaps.OverlapAdmittedExactly` | pkg/webhook/vlanconfig/validator.go:201-221 | a new VlanConfig can share a node with a live one of its network if and only if no foreign status is stored for network and node |
| `Overlaps.NodesChangedExactly` | pkg/webhook/vlanconfig/validator.go:92-159 | an update of the matched nodes is admitted if and only if no foreign status is stored on the new ones, no VMI runs on a dropped one, and none is dropped under a live system NAD |
| `Overlaps.AddedNodeAdmittedExactly` | pkg/webhook/vlanconfig/validator.go:92-159 | an update that adds a node is admitted if and only if no foreign status is stored for the network on the nodes it then matches, and it then shares the node with every VlanConfig set up there |
| `Overlaps.RunKeepsDisjoint` | pkg/webhook/vlanconfig/validator.go:201-221 | no two live VlanConfigs come to share a node in a run whose requests always find the statuses of all live ones |
| `Overlaps.SharedNodeRun` | pkg/webhook/vlanconfig/validator.go:57-90 | two VlanConfigs created before any status is stored share a node |
| `Overlaps.SharedNodeLosesStatus` | pkg/webhook/vlanconfig/validator.go:201-221 | the second of them ends up without a live status once the first is gone |
| `JointRuns.PatientRunKeepsDisjoint` | pkg/webhook/vlanconfig/validator.go:201-221 | in every run of requests and agents together, with current caches, no two live VlanConfigs share a node if requests wait until all statuses are stored |
| `JointRuns.HandlersEstablishExactly` | pkg/controller/agent/vlanconfig/controller.go:81-114 | one failure-free handler for each VlanConfig and node stores all statuses if and only if no two VlanConfigs have one status name |
| `VlanStatuses.Agent.GetVlanStatus` | pkg/controller/agent/vlanconfig/controller.go:170-188 | the only status with both labels, none, or an error if there are several |
| `VlanStatuses.Agent.RemoveVLAN` | pkg/controller/agent/vlanconfig/controller.go:270-305 | exactly when the label, the deletion or the teardown fails and what the status then is; without refusals the status is marked as deleted; then bond and bridge are gone if and only if both or neither existed |
| `VlanStatuses.Agent.UpdateStatus` | pkg/controller/agent/vlanconfig/controller.go:342-402 | writes the status of network and node with the handler's keys; a stored one keeps its deletion mark and its owner, a new one gets the VlanConfig as owner |
| `VlanStatuses.Agent.OnChange` | pkg/controller/agent/vlanconfig/controller.go:81-114 | takes exactly the steps of its task, none for the management network; exactly when it reports success; where nothing fails, a stale status is marked as deleted and a matching node has its status |
| `VlanStatuses.Agent.OnRemove` | pkg/controller/agent/vlanconfig/controller.go:116-135 | takes exactly the steps of its task; a success leaves no link of the network behind unless exactly one of bond and bridge was there; where nothing fails, the status is marked as deleted |
| `HostNetworks.ValidateHostNetworkConfig` | pkg/webhook/hostnetworkconfig/validator.go:294-326 | passes exactly if no live configuration, the old version included, conflicts |
| `HostNetworks.HostNetworksDisjoint` | pkg/webhook/hostnetworkconfig/validator.go:77-174 | over every admitted history two live configurations share neither sub-interface and lease key nor the underlay role |
| `HostNetworks.CreateExactly` | pkg/webhook/hostnetworkconfig/validator.go:77-120 | where all else is in order, a creation is admitted if and only if no live configuration has its sub-interface or, for the underlay, that role |
| `HostNetworks.UnderlayBlocksItself` | pkg/webhook/hostnetworkconfig/validator.go:300-308 | an underlay configuration cannot be deleted and admits exactly the updates that turn the underlay off |
| `Kernel.LinkTable.SetLinkUp` | pkg/network/iface/bond.go:58-110 | the link is up after a success and unchanged after a failure; it succeeds if and only if the first attempt does, or that one meets a conflict and the second does |
| `Bonds.BondConfig` | pkg/controller/agent/vlanconfig/controller.go:307-340 | the monitoring interval is always set |
| `Bonds.CompareBondIsKept` | pkg/network/iface/bond.go:284-320 | equal exactly if every set attribute is kept and an open monitoring interval is the default |
| `Bonds.CompareBondExactly` | pkg/network/iface/bond.go:284-320 | with every attribute set only a bond with just these will do, and an open one does not matter |
| `Bonds.BondConfigExactly` | pkg/controller/agent/vlanconfig/controller.go:307-340 | which attributes a configuration with all options and one without any ask for |
| `Bonds.Enslave` | pkg/network/iface/bond.go:163-186 | a free NIC becomes a slave; after a refused enslaving it is up again with the master it had; a NIC of another master is left alone |
| `Bonds.EnsureSlave` | pkg/network/iface/bond.go:162-194 | makes one NIC an up slave, leaves a NIC of another master alone, and does nothing for an up slave |
| `Bonds.EnsureBondSlaves` | pkg/network/iface/bond.go:151-221 | after success the slaves are exactly the configured NICs, all up, and released NICs are free and up; links of other masters never change |
| `Bonds.ModifyBond` | pkg/network/iface/bond.go:252-262 | nothing changes if the attributes agree; otherwise success puts a new bond without slaves in place, frees the old slaves and leaves every other link alone |
| `Bonds.EnsureBondLink` | pkg/network/iface/bond.go:121-149 | the bond is up with its attributes; it is deleted only if they differ; a panic only on a link of another kind |
| `Bonds.EnsureBond` | pkg/network/iface/bond.go:113-119 | success settles the bond; released NICs are free, and up unless the bond was created again; links of other masters never change; on a settled bond no link is deleted and no master changes, and nothing at all if no NIC is named twice; if the kernel refuses nothing, it succeeds exactly when no link of another kind has the name and every NIC exists and is free or already a slave (given distinct link indexes) |
| `Bonds.DroppedNicStaysDown` | pkg/network/iface/bond.go:252-262 | a concrete bond whose dropped NIC stays down although EnsureBond succeeds |
| `Bonds.RemoveBond` | pkg/network/iface/bond.go:223-250 | after success, which only a refusal can prevent, the bond is gone and its former slaves are free and up |
| `Bonds.Teardown` | pkg/network/vlan/vlan.go:82-103 | after success, which only a refusal can prevent, bond and bridge are gone and every former slave is present, free and up |
| `Bonds.RemoveVlan` | pkg/controller/agent/vlanconfig/controller.go:270-285 | after success both links are gone if and only if both or neither existed before; without refusals it succeeds, and does nothing exactly if a link is missing |
| `Bonds.HalfTornDownStays` | pkg/controller/agent/vlanconfig/controller.go:274-282 | a bridge without bond survives a removal that reports success |

## Left out

- Generated clients, deep copies, registration and command entry points: wiring only.
- netlink, iptables, sysctl, DHCP, ping and JSON libraries: replaced by the link table, the port and decoded values.
- Lease manager, link monitor, helper jobs, layer-3 routes, subnet and VPC webhooks, overlay NAD labels, management VlanConfig mirroring: driven by timers, pods or other controllers, and no modelled property reads what they write.
- Error texts and logging.
- Node selectors: the set of matching nodes is an input; the annotation stays as it was when that set is empty.
- Static addresses, readiness of statuses and node coverage of a host network: inputs of its validator, since they only restrict what is admitted further.
- VlanStatuses.Agent.OnChange: the setup of bond and bridge is a flag, so that links which a setup leaves behind when its status write fails are not tracked.
- Node labels, the wake-up of cluster networks and host networks, and bridge setup: side effects of the agent's handlers that no modelled property reads.
- Lifecycle.Next: does not model stale caches or concurrent admissions, because each request is one step on the current store.
- VlanStatuses.Next: the manager's removal handler and the removal of a status are one step, because two removals that are both handled before either takes effect can leave a network Ready without a status.
- Webhooks.MutatedOnUpdate: works on values, so that sharing of label and annotation maps between request and patch is not captured.
- Bonds.EnsureBond: MAC addresses and MTUs that the kernel derives from slaves are not tracked; a bond keeps the attributes that were set explicitly.
