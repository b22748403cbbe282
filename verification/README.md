# A model of the Piraeus operator

The operator keeps a LINSTOR storage cluster in line with Kubernetes objects by reconcile steps that are
repeated forever. This project models the parts of it that decide something, and proves what they guarantee over
all inputs and all runs.

- **Evacuation of satellites.** `Admission` is the slot scheduler, `Volumes` the annotations on PersistentVolumes,
  `Machines` the ClusterAPI hooks, `Protocol` one reconcile or deletion of one satellite as one atomic step on
  shared state, and `Evacuator` the same steps run one after the other on the objects they change, proved equal to
  the step of `Protocol`. `AdmissionRuns`, `VolumeRuns`, `ProtocolRuns`, `StepLaws` (what one reconcile does to each
  part of the state, and exactly when), `Waiting` (what a satellite keeps while it waits) and `Termination` (which
  volumes hold a pass up, and when an evacuation ends) hold what holds over snapshots and whole runs. `Nodes`
  registers a node in LINSTOR. `Conditions` is the priority rule behind the recorded reasons.
- **Shared property maps.** `Properties` and `KeyList`: the operator owns some keys of a map it shares with others,
  and records which ones inside that map. `StoragePools` and `NodeConnections` build on it.
- **Garbage collection.** `GarbageCollection`: the loop over owner references reaches the largest set of objects
  that supports itself.
- **Transformations.** `PodPatch` relocates JSON Patches (RFC 6902, section 4; pointers as in RFC 6901, sections 3
  and 4); `Merge` layers satellite configurations.
- **Validators.** `PoolWebhook`, `FieldPath` and `NodeProperties`: what acceptance by the webhooks is worth to the
  code that relies on it.
- `Ordering`, `Clock`, `Slashes` and `Wrappers` are shared: Go's string order, sorted key lists, times to the
  second, texts with slashes, optional values.

Library calls are functions: sorting on distinct keys, qualified-name checks, regular expressions, node selector
matching (a set of matching nodes) and device path checks are parameters or definitions of the model. API calls are
parameters too: what they return, and which of them fail. An update of a Machine may also be written although an
error is reported. The reconcile of a satellite also deletes storage pools that are no longer wanted; that no data
is lost then rests on LINSTOR refusing to delete a pool in use, which the results about data assume. Requirements on
lists say what the APIs guarantee: names of objects are unique, a LINSTOR resource exists once per node, and lists
with name as map key have every name once.

## Where the code and its words differ

- `pkg/evacuation/evacuation.go:95-96` says that started work is never interrupted. It is not while it goes on
  without an error; but an evacuation that fails once no longer counts as in progress, and its slot can go to
  another satellite (`AdmissionRuns.ErrorGivesSlotAway`). `AdmissionRuns.SlotLostExactlyWhen` lists all ways.
- `internal/controller/linstorsatellite_controller.go:538-540` says what stays while a satellite waits. The reconcile
  that is turned away has still given the satellite a missing finalizer, registered a missing node, and taken the node
  out of automatic placement; nothing at all changes exactly if all that was so before (`Waiting.TurnedAway`,
  `Waiting.TurnedAwayButTouched`).
- The order of admission is that of arrival (`AdmissionRuns.FirstComeFirstServed`) as long as whoever joins the line
  joins at its end. A completed satellite that asks again ranks by the time of its completion and can pass those that
  wait (`AdmissionRuns.CompletedOvertakes`), one that failed ranks by the time it began; and times are kept to the
  second, so that arrivals in the same second are ordered by name (`AdmissionRuns.SameSecondByName`).
- A relocated JSON Patch is not always the original one on the template. An operation is carried over exactly if
  its pointers start with a slash and a value it needs is not null, and apart from that only if it fails, or changes
  nothing, on both: a null value is dropped, the empty pointer keeps meaning the whole DaemonSet, and a pointer
  without its slash ends up next to the template. `PodPatch.ExactIffCarried` says so for all operations, pointers
  and values.
- An empty bookkeeping entry that someone else left is not removed when nothing is desired
  (`Properties.ApplyReconciles`).
- A volume with an override annotation other than "true" that needs overriding, or with an explicit override
  action, keeps step 1 from ever being complete (`VolumeRuns.SecondPass`).
- The webhook protects the backend of LVM pools only, thick or thin. ZFS pools may move to another zpool, file pools
  to another directory, again thick or thin (`PoolWebhook.BackendKeptIff`).
- The wait for a volume to be attached elsewhere is not bounded by its timeout: a volume that was let go is marked
  again while its resource is still on the node, and waits again if it is then found detached
  (`VolumeRuns.WaitStartsAgain`). `VolumeRuns.WaitLaw`, and `Termination.WaitLaw` over runs of the protocol, say which
  passes are blocked.
- A satellite in progress that stops asking, because its policy changed or its node is offline, keeps its slot: as
  many of them as the limit allows keep everyone else out (`AdmissionRuns.HeldSlotsBlock`).

## Model

| member | source | states |
|---|---|---|
| Admission.CollectCandidates | pkg/evacuation/evacuation.go:122-151 | the candidates are everyone in progress or waiting, and the caller in any case, each once, with the time on record |
| Admission.SortCandidates | pkg/evacuation/evacuation.go:153-164 | the result is in the strict order of admission and holds the same candidates |
| Admission.IndexIsPosition | pkg/evacuation/evacuation.go:166-168 | in the sorted list of competitors, the index of a candidate is the number of competitors ahead of it |
| Admission.AdmitEvacuation | pkg/evacuation/evacuation.go:102-171 | the answer depends on the conditions only, not on list order: admitted iff fewer than the limit are ahead; the position is that number; everyone is admitted without a limit |
| Admission.ViewIgnoresOrder | pkg/evacuation/evacuation.go:122-151 | two lists with the same satellites in any order say the same |
| AdmissionRuns.PositionsAreABijection | pkg/evacuation/evacuation.go:94-98 | positions computed by separate calls number the competitors 0 to n-1, each once |
| AdmissionRuns.ExactlyTheLimit | pkg/evacuation/evacuation.go:94-98 | of n competitors exactly min(limit, n) are admitted |
| AdmissionRuns.AllActiveAdmittedIffBounded | pkg/evacuation/evacuation.go:94-98 | everyone in progress is admitted iff no more than the limit are in progress |
| AdmissionRuns.RunsKeepTheLimit | pkg/evacuation/evacuation.go:63-89 | in every run of reconciles with a fixed limit no more than the limit are in progress, and whoever is in progress is admitted when it asks again |
| AdmissionRuns.SlotLostExactlyWhen | pkg/evacuation/evacuation.go:77-88 | an evacuation in progress stops counting as such exactly when it finishes, fails, cannot list the satellites, or its object vanishes |
| AdmissionRuns.HeldSlotsBlock | pkg/evacuation/evacuation.go:166-170 | with all slots taken, exactly their holders are admitted at the end of every run in which no holder finishes, fails, cannot list or vanishes |
| AdmissionRuns.SilentHoldersBlock | internal/controller/linstorsatellite_controller.go:149-158 | holders that are never heard of again keep their slots and keep everyone else out, whatever the others do |
| AdmissionRuns.ErrorGivesSlotAway | pkg/evacuation/evacuation.go:95-96 | a run in which an evacuation that had started fails once, loses its slot to the next in line, and has to wait |
| AdmissionRuns.PositionMoves | pkg/evacuation/evacuation.go:125-147 | the exact change of a position caused by one record of another satellite |
| AdmissionRuns.OthersKeepPlace | pkg/evacuation/evacuation.go:153-170 | a step of another satellite, unless it joins the line ahead of its turn, keeps a place below the limit below it, never pushes back one above, and brings it forward by one if an evacuation ends or fails with it |
| AdmissionRuns.FirstComeFirstServed | pkg/evacuation/evacuation.go:94-98 | over every run in which whoever joins the line is recorded, and starts, behind those in it, a waiting satellite whose own list calls succeed is served, or is below the limit, or has come forward by at least the number of evacuations that ended; completed satellites may ask again and others may fail |
| AdmissionRuns.EnoughCompletionsAdmit | pkg/evacuation/evacuation.go:94-98 | after position - limit + 1 evacuations that ended a waiting satellite has been served or is admitted the next time it asks |
| AdmissionRuns.TimeOnRecord | pkg/evacuation/evacuation.go:140-143 | over every run the time on record of a satellite is the second of the first event of its last stretch of being complete, or of waiting, evacuating or failing; or what it was if that stretch goes back to the start |
| AdmissionRuns.ReasonOnRecord | pkg/evacuation/evacuation.go:63-89 | what each reconcile records: waiting iff turned away, otherwise error, in progress or completed as the steps end; nobody else's condition changes |
| AdmissionRuns.CompletedOvertakes | pkg/evacuation/evacuation.go:140-143 | two runs from before a completion: a satellite that completed ranks by the time of that, so it passes one that began to wait later, and waits behind one that began earlier |
| AdmissionRuns.SameSecondByName | pkg/evacuation/evacuation.go:140-164 | of two satellites that begin to wait in the same second the one with the smaller name is first, whoever arrived first |
| Conditions.Collection.Add | pkg/conditions/conditions.go:67-119 | a reason replaces one of lower priority together with the status; every message is kept; a missing entry is created |
| Conditions.HighestReasonWins | pkg/conditions/conditions.go:30-38 | after any additions the entry has the reason of highest priority and the status that belongs to it |
| Conditions.RankingOfReasons | pkg/conditions/conditions.go:30-38 | an error outranks everything, then come unknown, in progress, waiting, completed, as expected; the status is true for the last two, undetermined for unknown or nothing, else false |
| Conditions.OrderOfAdditionsIsIrrelevant | pkg/conditions/conditions.go:67-119 | reason and status do not depend on the order of additions |
| Volumes.Cluster.ToAttachedNodes | pkg/evacuation/evacuation.go:674-683 | the map gives for every PV the nodes it is attached to |
| Volumes.Cluster.PreparePVsForEvacuation | pkg/evacuation/evacuation.go:234-365 | every PV behind a diskful resource is marked, overridden or deleted as its action says, each of its two writes as far as it is not refused; others are unchanged; error, pending and done as the volumes say, with failing calls joined, those on claims included |
| VolumeRuns.StepOneDoes | pkg/evacuation/evacuation.go:291-352 | a volume on the node is marked by whether it is attached, unless it was; it is deleted iff the nearest action asked for is Delete; it gets an override iff it has none and the nearest action is AffinityOverride or nobody asked and it is bound to the node; nothing else changes |
| VolumeRuns.StepOneWrites | pkg/evacuation/evacuation.go:267-352 | the pass writes to the volumes on the node and to no others, update and deletion each unless refused |
| VolumeRuns.StepOneEnds | pkg/evacuation/evacuation.go:338-364 | step 1 fails iff a call that is due for a volume on the node fails, and is otherwise pending iff an override is asked for, or needed and not in effect, also where it has another value |
| VolumeRuns.TargetsAre | pkg/evacuation/evacuation.go:284-289 | the volumes on the node are those that a resource there leads to as the last listed volume of the driver with its name |
| Volumes.ByResourceIsLast | pkg/evacuation/evacuation.go:643-660 | a handle is found iff a listed volume of the CSI driver has it, and leads to the one listed last |
| Volumes.Cluster.ReleaseAttached | pkg/evacuation/evacuation.go:470-511 | up to a failure, exactly the volumes attached elsewhere lose their two marks; the blocked ones are collected |
| Volumes.Cluster.StampBlocked | pkg/evacuation/evacuation.go:513-529 | blocked volumes without a stamp get the time of this pass, others keep theirs |
| Volumes.Cluster.WaitForReattach | pkg/evacuation/evacuation.go:453-532 | the outcome of both loops for every volume; failure iff a stamp cannot be read or a needed update fails; pending iff a volume blocks |
| Volumes.Cluster.CleanPVsAfterEvacuation | pkg/evacuation/evacuation.go:602-624 | all volumes whose update does not fail lose the three annotations of the node; failure iff an update that was needed fails |
| VolumeRuns.SecondPass | pkg/evacuation/evacuation.go:291-364 | after an error-free preparation pass the next one writes nothing, and is done iff no volume has an explicit override action or an override annotation with another value where one is needed |
| VolumeRuns.PreparedVolumesCanMove | pkg/evacuation/evacuation.go:309-319 | after one pass a volume without an explicit action that is not stuck can be used on another node, and an override is set only where it is needed |
| VolumeRuns.MarksTellTheWait | pkg/evacuation/evacuation.go:295-523 | before every pass the two annotations say exactly which wait the volume is in: the attachment found when it was marked, and the second of its first blocked pass |
| VolumeRuns.SpellMeaning | pkg/evacuation/evacuation.go:295-523 | a wait begins with the first pass that meets the volume after the wait before ended, lasts until a pass lets the volume go or cleans it up, and its clock starts with its first blocked pass that could write |
| VolumeRuns.WaitLaw | pkg/evacuation/evacuation.go:453-532 | over every series of passes, whether they meet the volume, get as far as step 4 or 7 or not, and whatever their timeouts, a pass is blocked iff the volume is waited for and not attached elsewhere, and lets it go iff it is waited for and attached elsewhere |
| VolumeRuns.WaitStartsAgain | pkg/evacuation/evacuation.go:501-506 | a volume that was let go while its resource is still on the node, and is then found detached, blocks again, long after the first wait is over |
| VolumeRuns.FreeOnceGone | pkg/evacuation/evacuation.go:284-289 | a volume that was let go, and whose resource has left the node, never blocks again |
| VolumeRuns.StampNeverMoves | pkg/evacuation/evacuation.go:472-478 | across any calls a stamp stays as first written while the volume is not attached elsewhere only |
| VolumeRuns.BlocksUntilTimeout | pkg/evacuation/evacuation.go:480-499 | a stamped volume blocks a call iff the call comes before stamp plus timeout |
| VolumeRuns.FirstCallStamps | pkg/evacuation/evacuation.go:516-523 | an unstamped volume blocks iff its timeout is positive, and then gets the current second as its stamp; a timeout of 0 never blocks |
| VolumeRuns.WaitIsBounded | pkg/evacuation/evacuation.go:453-532 | of a volume that is never seen attached to other nodes only, no call is blocked a full timeout after the first one that met it |
| VolumeRuns.DoLocal | pkg/evacuation/evacuation.go:291-319 | what a pass for a node writes depends on that node's annotations only, beside what evacuations never change |
| VolumeRuns.WritesCommute | pkg/evacuation/evacuation.go:291-319 | writes of evacuations of two different nodes to one volume commute |
| VolumeRuns.OthersUntouched | pkg/evacuation/evacuation.go:602-624 | no series of passes changes an annotation that belongs to none of their nodes |
| Machines.Client.PreventMachineDeletion | pkg/clusterapi/machine.go:57-78 | both hooks are set unless the Machine is being deleted or has them |
| Machines.Client.AllowMachineDrain | pkg/clusterapi/machine.go:81-98 | the drain hook is removed from the copy and, if the update is written, from the Machine; a Machine that is gone is no error |
| Machines.Client.AllowMachineTermination | pkg/clusterapi/machine.go:101-118 | the same for the terminate hook |
| Evacuator.RunEarly | pkg/evacuation/evacuation.go:177-200 | the steps run one after the other are steps 1 to 4 of the protocol |
| Evacuator.EvacuateNode | pkg/evacuation/evacuation.go:534-572 | LINSTOR is asked to evacuate unless it is evacuating and a replacement is still syncing |
| Evacuator.WaitForEvacuation | pkg/evacuation/evacuation.go:574-600 | done iff neither a resource nor a snapshot is left on the node |
| Evacuator.RunFinish | pkg/evacuation/evacuation.go:202-227 | the steps run one after the other are steps 5 to 8 of the protocol |
| Evacuator.Evacuate | pkg/evacuation/evacuation.go:63-89 | admission on the listed satellites, the steps, and the condition are one step of the protocol |
| ProtocolRuns.PassKeepsVolumes | pkg/evacuation/evacuation.go:173-227 | a pass changes no annotation of another owner and deletes no volume on its own account; when done, no volume carries an annotation of the node |
| ProtocolRuns.HookGates | pkg/evacuation/evacuation.go:177-227 | the drain hook goes only when admitted, step 1 is complete and all other remaining satellites are configured at their generation; the terminate hook only when the node is empty and its annotations are gone |
| ProtocolRuns.RunsOrderHooks | internal/controller/linstorsatellite_controller.go:379-396 | if only the operator edits hooks, no reachable state has the drain hook without the terminate hook |
| ProtocolRuns.TendDiscardsNothing | internal/controller/linstorsatellite_controller.go:135-149 | a satellite that is not being deleted never makes the operator discard a replica or snapshot, forget a node, or drop a finalizer; the only node and finalizer it may add or change are its own |
| ProtocolRuns.RunDiscardsIff | internal/controller/linstorsatellite_controller.go:723-813 | since others last changed anything, the operator has discarded a replica or snapshot iff one of its steps deleted a satellite with the Delete policy whose node held something; it never adds any |
| ProtocolRuns.EvacuationKeepsData | internal/controller/linstorsatellite_controller.go:767-796 | without the Delete policy no number of operator steps discards a replica or snapshot, whatever happens between them |
| ProtocolRuns.VolumesSurviveRuns | pkg/evacuation/evacuation.go:309-361 | over any run no volume is added, dropped or redirected, the action on it stays, and it is deleted only if a step found the action to delete it |
| ProtocolRuns.SparedVolumesSurvive | pkg/evacuation/evacuation.go:378-398 | a volume that its own annotation spares is not deleted in any run whatever LINSTOR says, nor one that its resource definition spares, whatever its group says |
| ProtocolRuns.RemoveDiscardsIff | internal/controller/linstorsatellite_controller.go:723-813 | deleting a satellite discards data iff the policy is Delete, the order reached LINSTOR and the node held something |
| ProtocolRuns.FinalizerGate | internal/controller/linstorsatellite_controller.go:769-812 | under Evacuate the finalizer goes only if LINSTOR does not know the node, or the evacuation is done, the node is empty, and deleting it succeeded or found none |
| StepLaws.RemoveReleasesIff | internal/controller/linstorsatellite_controller.go:723-813 | deleting a satellite lets go of it iff the finalizer write and the reads succeed and: without a cluster the hooks can be removed; or Retain; or Delete and removing the node does not fail; or Evacuate and LINSTOR does not know the node, or the evacuation is done and deleting the node does not fail |
| StepLaws.RemoveForgetsIff | internal/controller/linstorsatellite_controller.go:793-806 | LINSTOR forgets the node, and exactly what was on it, iff the order is written under Delete, or under Evacuate once done |
| StepLaws.RemoveAsksIff | internal/controller/linstorsatellite_controller.go:767-791 | deleting a satellite asks for admission iff its policy is to evacuate, LINSTOR knows its node and the limit can be read; volumes, conditions and hooks change then only, hooks also without a cluster |
| StepLaws.TendDoes | internal/controller/linstorsatellite_controller.go:366-561 | a reconcile asks for admission iff the satellite is ready, online, to be evacuated, and the limit can be read; otherwise nothing but readying happens, and an evacuation that is not wanted any more is called off |
| StepLaws.ReadyDoes | internal/controller/linstorsatellite_controller.go:134-478 | finalizer, hooks and registration of a reconcile, and when all of it succeeds; a node whose Machine goes is taken out of automatic placement, others have the properties of the spec |
| StepLaws.HooksFollowPolicy | internal/controller/linstorsatellite_controller.go:379-396 | under Evacuate a Machine that stays gets both hooks, under other policies both go, as far as updates are written; when that fails |
| StepLaws.PassHooksIff | pkg/evacuation/evacuation.go:188-224 | in an admitted pass the drain hook goes iff step 3 is reached and its update written, or with the other hook; that one goes iff its update is all that is missing for the pass to be done, and is written |
| StepLaws.EvacuationIsAsked | pkg/evacuation/evacuation.go:534-572 | after steps 1 to 4 LINSTOR is asked to evacuate iff the sync status is known and the node is not being evacuated or nothing is on its way; then only the call decides the flag of the node, and a failing one fails the pass |
| StepLaws.PassIsDoneIff | pkg/evacuation/evacuation.go:173-227 | whatever calls fail, a pass is done iff every one of its steps is, each step spelled out |
| StepLaws.SatelliteDoneIff | pkg/evacuation/evacuation.go:63-89 | an evacuation is done iff it is admitted, by list and position, and its pass is done |
| StepLaws.TargetsAreOnNode | pkg/evacuation/evacuation.go:626-660 | step 1 meets exactly the volumes to which a resource with a disk on the node leads |
| ProtocolRuns.PassIsAdmissionStep | internal/controller/linstorsatellite_controller.go:149-158 | the condition a reconcile of satellite n writes is the admission step of n at the time of the reconcile, with the outcome of its own evacuation steps |
| ProtocolRuns.TraceTellsBoard | internal/controller/linstorsatellite_controller.go:98-175 | the conditions at the end of every run are those of the admission protocol on the trace of the run |
| ProtocolRuns.RunsKeepTheLimit | internal/controller/linstorsatellite_controller.go:98-175 | however reconciles and deletions interleave, no more than the limit evacuate at a time, and none that does is turned away |
| ProtocolRuns.FirstComeFirstServed | pkg/evacuation/evacuation.go:94-98 | however reconciles interleave, an unserved waiting satellite is below the limit or has come forward by the number of evacuations that ended, and enough of them admit it |
| ProtocolRuns.HeldSlotsBlock | internal/controller/linstorsatellite_controller.go:149-158 | in every run that frees no slot of a full board, exactly the holders are admitted |
| Waiting.TurnedAway | internal/controller/linstorsatellite_controller.go:379-546 | a satellite that is turned away keeps hooks, annotations and evacuate flag, has its finalizer, is registered and is out of automatic placement; nothing changes iff that was so before |
| Waiting.TurnedAwayButTouched | internal/controller/linstorsatellite_controller.go:433-475 | a new satellite that is turned away gains a finalizer and a node, an established one loses automatic placement |
| Waiting.WaitingIsSpared | internal/controller/linstorsatellite_controller.go:538-540 | over every run, as long as a satellite is kept out its hooks, annotations and evacuate flag are as others left them, and its finalizer and node stay |
| Waiting.WaitingIsUntouched | internal/controller/linstorsatellite_controller.go:538-540 | over every run a satellite that is kept out, has its finalizer and a node that is up to date has nothing touched at all, not even a property of its node |
| Termination.MarksOverRuns | pkg/evacuation/evacuation.go:295-523 | over every run of the protocol, with passes of all satellites interleaved and failing anywhere, the marks of a node on a volume say in which wait of that node it is |
| Termination.WaitLaw | pkg/evacuation/evacuation.go:453-532 | in every run, what step 4 finds of a volume is what the wait law says about the passes of its node so far |
| Termination.PassDoneIff | pkg/evacuation/evacuation.go:173-227 | without failing calls, a pass is done iff the node is empty, all others are configured, and no volume blocks it |
| Termination.NextPassDoneIff | pkg/evacuation/evacuation.go:173-227 | in every run, without failing calls, the next pass is done iff the node is empty, all others are configured, and no volume is both waited for and not in use elsewhere |
| Termination.EvacuationEnds | pkg/evacuation/evacuation.go:62-89 | once the node is empty, two passes without failing calls that are a timeout apart end the evacuation, whatever happens in between |
| KeyList.RoundTrip | pkg/linstorhelper/properties.go:75-81 | reading back a written list of keys yields the keys, for all characters |
| Properties.UpdateLastApplyProperty | pkg/linstorhelper/properties.go:57-83 | the properties with the sorted list of their keys, or nothing for no properties |
| Properties.StampSpelled | pkg/linstorhelper/properties.go:57-83 | nothing for no properties; otherwise each as it is, and their strictly ascending names as the text of a list |
| KeyList.TextOfItems | pkg/linstorhelper/properties.go:75-81 | the text of a list of plain keys: quoted, with commas, in brackets |
| KeyList.TextOfSigns | pkg/linstorhelper/properties.go:75-81 | what is written for every sign: a short escape, the code in four hexadecimal digits, or itself |
| Properties.MakePropertiesModification | pkg/linstorhelper/properties.go:19-54 | the request overrides what differs and deletes what was owned and is not wanted; none if there is nothing to do |
| Properties.ApplyReconciles | pkg/linstorhelper/properties.go:19-54 | on every map, applying the request gives up what was owned and owns what is desired, iff not (nothing is desired and an empty bookkeeping entry exists) |
| Properties.Settles | pkg/linstorhelper/properties.go:34-37 | asking again for what was just applied requests nothing |
| Properties.HistoryPerKey | pkg/linstorhelper/properties.go:34-51 | over every history of desired maps and foreign writes, from any map, each key ends as if ownership were tracked per key outside the map |
| Properties.HistoryStaysTidy | pkg/linstorhelper/properties.go:57-83 | over such a history the bookkeeping entry stays one that the operator wrote |
| Nodes.Controller.CreateOrUpdateNode | pkg/linstorhelper/client.go:232-272 | a missing node is created with the wanted properties and their key list, an existing one gets the change of properties it needs; each call may fail |
| Nodes.RegisteredIsUpToDate | pkg/linstorhelper/client.go:232-272 | a successful registration brings the node in line and keeps all others; it changes nothing iff the node was up to date |
| Nodes.RegistrationDoes | pkg/linstorhelper/client.go:232-272 | what becomes of the node call by call, and when the registration succeeds |
| Properties.HistoryOfDesires | pkg/linstorhelper/properties.go:19-83 | a series of desired maps ends as the start, minus everything ever desired, plus the last one with its key list |
| GarbageCollection.Collector.ShouldCollect | pkg/k8sgc/k8sgc.go:119-150 | collect iff the object names owners, is not being deleted, and no reference names an object of that kind and name, in its namespace or cluster scope, that is not being deleted and has that UID |
| GarbageCollection.Collector.SweepKind | pkg/k8sgc/k8sgc.go:85-109 | a pass over a kind only collects objects outside every supported set, and finds none if it changes nothing |
| GarbageCollection.Collector.Run | pkg/k8sgc/k8sgc.go:80-117 | terminates; without failures the live objects are the largest set of initially live ones in which every watched member with owners has one of them, by kind, name, namespace and UID; the others are gone or, with finalizers, being deleted; failures touch nothing of that set |
| GarbageCollection.OutcomeIsUnique | pkg/k8sgc/k8sgc.go:80-117 | the final store depends neither on the order of kinds nor on that of objects |
| PodPatch.ConvertJsonPatch | pkg/barepodpatch/barepodpatch.go:94-117 | every operation is relocated in place |
| PodPatch.RelocatedPointer | pkg/barepodpatch/barepodpatch.go:101-109 | a pointer with the prefix has the tokens spec and template in front of its own |
| PodPatch.PatchRelocates | pkg/barepodpatch/barepodpatch.go:94-117 | if every operation is carried over exactly, the converted patch does to the DaemonSet what the original does to the template, and fails iff it fails |
| PodPatch.ConvertedPointer | pkg/barepodpatch/barepodpatch.go:101-109 | where a converted pointer leads, for every text: into the template, into a part of the spec, to the whole document, or nowhere |
| PodPatch.ExactIffCarried | pkg/barepodpatch/barepodpatch.go:94-117 | for all six operations, all pointers and all values: the converted operation does to every DaemonSet what the original does to the template, and fails iff it fails, iff its pointers start with a slash and a needed value is not null, or it is one of the listed operations that fail, or change nothing, on both |
| PodPatch.OperationsAreEdits | pkg/barepodpatch/barepodpatch.go:94-117 | the six operations as RFC 6902, section 4, relates them: replacing is removing and adding, moving is removing and adding elsewhere, copying is adding, testing finds exactly that |
| PodPatch.WrittenIsFound | pkg/barepodpatch/barepodpatch.go:94-117 | what was added or put in place is found there |
| PodPatch.AddsTo | pkg/barepodpatch/barepodpatch.go:94-117 | where adding works, and how it moves the elements of an array |
| PodPatch.IndexIff | pkg/barepodpatch/barepodpatch.go:94-117 | array indices are exactly the numbers as they are written in decimal, without leading zeros |
| PodPatch.ParseInvertsPrinting | pkg/barepodpatch/barepodpatch.go:101-109 | pointers are read as RFC 6901 writes them |
| StoragePools.Registry.ReconcilePool | internal/controller/linstorsatellite_controller.go:574-680 | one pool of the spec: a missing one is registered iff its backend is there or can be made from devices that are; when that, reading it back or changing its properties fails; other pools are unchanged |
| StoragePools.Registry.ReconcileStoragePools | internal/controller/linstorsatellite_controller.go:563-698 | without errors the pools are those of a complete pass; where nothing is to be done nothing is written |
| StoragePools.PassedPools | internal/controller/linstorsatellite_controller.go:563-698 | after a pass the managed pools are exactly those of the spec with the wanted properties, foreign pools are unchanged, and a further pass has nothing to do |
| PoolWebhook.ValidateSource | api/v1/storagepool.go:296-346 | no complaint iff the source is absent, or unchanged with devices that are clean, below /dev, and new |
| PoolWebhook.PoolAcceptedIff | internal/webhook/v1/storagepool.go:26-304 | a pool has no complaint, its devices aside, iff its name is well formed, it has one kind, the one it had, its identifiers are well formed and stay, shared space, locking and source go together, and its directory is clean |
| PoolWebhook.SourceAcceptedIff | api/v1/storagepool.go:296-346 | devices are accepted iff there is no source, or an unchanged one with a list of clean paths below /dev, all different and used by no pool before it |
| PoolWebhook.ListAcceptedIff | internal/webhook/v1/storagepool.go:26-106 | a list is accepted iff each pool is, against the first old pool of its name and the devices of the pools before it |
| PoolWebhook.BackendNames | api/v1/storagepool.go:71-108 | the backend of a pool by its kind, with the defaults |
| PoolWebhook.CleanAbsoluteIff | internal/webhook/v1/storagepool.go:295-301 | a directory is clean iff it is the root, or begins there and no part of it is empty, . or .. |
| PoolWebhook.ValidateStoragePools | internal/webhook/v1/storagepool.go:26-106 | no complaint iff every pool has one type, the type and backend it had, and an accepted source |
| PoolWebhook.AcceptedDevicesDistinct | api/v1/storagepool.go:329-336 | no device occurs twice in an accepted list, in one pool or two |
| PoolWebhook.DevicesAreNotShared | api/v1/storagepool.go:329-336 | no two places of an accepted list name the same device |
| PoolWebhook.PoolsNeverChange | internal/webhook/v1/storagepool.go:137-304 | along every series of accepted lists a pool keeps kind, LVM backend, shared space and locking, and its source until it is dropped |
| PoolWebhook.BackendKeptIff | internal/webhook/v1/storagepool.go:137-304 | the backend of an accepted pool is the same after every accepted update iff it is an LVM pool, thick or thin |
| NodeConnections.MergeNodeConnection | internal/controller/linstornodeconnection_controller.go:271-289 | properties, then both path keys of every path, override what was there |
| NodeConnections.DesiredNodeConnections | internal/controller/linstornodeconnection_controller.go:234-269 | every two satellites in name order, with the properties between them if there are any |
| NodeConnections.AppliesIff | internal/controller/linstornodeconnection_controller.go:291-337 | a connection applies iff it selects nothing, or all expressions of one of its terms hold of the labels of the two nodes, operator by operator; a missing label reads as empty |
| NodeConnections.OppositesOnOneNode | internal/controller/linstornodeconnection_controller.go:305-330 | on equal labels the operators come in pairs of opposites |
| NodeConnections.LastConnectionDecides | internal/controller/linstornodeconnection_controller.go:271-289 | a property is there iff a connection that applies mentions it, and the last such connection decides its value: its last path with that key, or else its last property of that name |
| NodeConnections.BetweenSymmetric | internal/controller/linstornodeconnection_controller.go:271-337 | the properties between two nodes do not depend on which is called A |
| NodeConnections.EachPairOnce | internal/controller/linstornodeconnection_controller.go:244-266 | two satellites are derived as one pair, with the properties between them |
| NodeConnections.Connections.ReconcileAll | internal/controller/linstornodeconnection_controller.go:142-169 | existing connections are brought in line, missing ones made where both nodes are online; nothing is sent where nothing is to be done |
| NodeConnections.PassedConnections | internal/controller/linstornodeconnection_controller.go:142-169 | whatever bookkeeping entries there were, existing connections get the desired properties, missing ones are made iff both satellites are online, and a further pass does nothing |
| Merge.SatelliteConfigurations | pkg/merge/linstorsatelliteconfiguration.go:22-99 | the merge of all matching configurations, with its named entries listed in name order |
| Merge.MergeIsHomomorphic | pkg/merge/linstorsatelliteconfiguration.go:16-21 | merging a list in two parts is overriding the merge of the first by that of the second |
| Merge.LastDefinitionWins | pkg/merge/linstorsatelliteconfiguration.go:44-50 | merged properties and storage pools are, for every name, those defined last in the matching configurations |
| Merge.LastSettingWins | pkg/merge/linstorsatelliteconfiguration.go:64-82 | TLS, IP families, separator, deletion policy and evacuation strategy are each those set last in the matching configurations |
| Merge.ListsConcatenate | pkg/merge/linstorsatelliteconfiguration.go:44-64 | names and patches of the matching configurations come one after the other, a template before the patches beside it |
| Merge.MatchingIs | pkg/merge/linstorsatelliteconfiguration.go:32-42 | exactly the configurations count whose node selector is among the labels and whose node affinity, if any, matches, in the order of the list |
| Merge.ByNameIsLast | pkg/merge/linstorsatelliteconfiguration.go:44-50 | of several entries with one name the last one counts, and every name that occurs has one |
| Merge.OnlyMatchingCount | pkg/merge/linstorsatelliteconfiguration.go:32-42 | configurations that do not match have no effect |
| Merge.MergedListsSorted | pkg/merge/linstorsatelliteconfiguration.go:82-96 | properties and storage pools come out strictly sorted by name |
| Merge.ListedIsSorted | pkg/merge/linstorsatelliteconfiguration.go:82-96 | the list of a map of entries is complete and strictly sorted |
| Merge.ListingOrderIsIrrelevant | internal/controller/linstorcluster_controller.go:312-314 | after the sort by name the merge does not depend on the order of listing |
| FieldPath.SplitInvertsPrint | pkg/utils/fieldpath/fieldpath.go:142-155 | splitting inverts printing path and key iff the path is not empty and holds no opening bracket |
| FieldPath.SplitMaybeSubscriptedPath | pkg/utils/fieldpath/fieldpath.go:142-155 | a split reference prints back to itself |
| FieldPath.FilterPrefix | pkg/utils/fieldpath/fieldpath.go:101-110 | exactly the keys with the prefix, without it, with their values |
| FieldPath.MapToSlices | pkg/utils/fieldpath/fieldpath.go:112-128 | sorted keys and the values in the same order |
| FieldPath.FilterByPrefix | pkg/utils/fieldpath/fieldpath.go:101-110 | the loop over the map collects exactly those entries |
| FieldPath.Extract | pkg/utils/fieldpath/fieldpath.go:36-97 | the loops and the dispatch yield what the reference means on the node |
| FieldPath.SubscriptedReference | pkg/utils/fieldpath/fieldpath.go:43-79 | a reference to labels or annotations by a key yields that value, or with a star all whose keys begin so, the rest of their keys ascending; other paths take no subscript |
| FieldPath.PlainReferences | pkg/utils/fieldpath/fieldpath.go:82-96 | what the five references without a subscript yield, and that there are no others |
| FieldPath.KindDependsOnPathOnly | pkg/utils/fieldpath/fieldpath.go:36-97 | whether a reference is an error or a wildcard is the same on all nodes |
| FieldPath.SomeNodeHasIt | pkg/utils/fieldpath/fieldpath.go:54-59 | a valid reference that is no wildcard has one value on some node |
| FieldPath.WildcardIsParallel | pkg/utils/fieldpath/fieldpath.go:46-47 | a wildcard has as many values as keys, sorted by key, on every node |
| NodeProperties.Resolve | pkg/utils/property_resolution.go:13-71 | properties are resolved in order, later names override earlier ones, and the first error ends it |
| NodeProperties.ResolvedInOrder | pkg/utils/property_resolution.go:13-71 | each property is resolved onto what those before it gave, and an error is final |
| NodeProperties.LiteralsResolve | pkg/utils/property_resolution.go:17-19 | of literal properties every name gets its last value, and there are no other names |
| NodeProperties.ValueResolves | pkg/utils/property_resolution.go:17-36 | a literal value is taken, a reference gives its first value, or an empty one or nothing if it has none and is not or is optional |
| NodeProperties.NamesResolve | pkg/utils/property_resolution.go:37-56 | expanding into names: each match gives the filled templates, the last one of a name counts, other names stay |
| NodeProperties.JoinResolves | pkg/utils/property_resolution.go:56-68 | expanding into one property: the filled templates joined in the order of the keys |
| NodeProperties.ReplacingGlues | pkg/utils/property_resolution.go:45-60 | filling a template puts the value in the place of every occurrence and keeps everything between |
| NodeProperties.FilledTemplates | pkg/utils/property_resolution.go:45-60 | $1 is the key, $2 the value, and other text stays |
| NodeProperties.NoSourceNoEffect | pkg/utils/property_resolution.go:15-71 | a property without a source has no effect |
| NodeProperties.Validate | internal/webhook/v1/properties.go:14-66 | the complaints about every property in order, with references tried on an empty node |
| NodeProperties.AcceptedIffResolvesEverywhere | internal/webhook/v1/properties.go:14-66 | the webhook accepts a list iff its entries are well formed and each resolves on every node |
| NodeProperties.AcceptedListResolves | pkg/utils/property_resolution.go:13-71 | an accepted list resolves without error on every node |

## Left out

- Kustomize rendering, embedded YAML and the patch-building helpers: template plumbing over a library.
- Pods, TLS, caches, events, log lines and human-readable messages: no effect on the decisions modelled here.
- Crashes between two external writes of one reconcile, and changes of the limit during a run: the code promises nothing there.
- VolumeRuns.WaitLaw: marks that others edit or remove between passes are not modelled, and one list of attachments stands for those that steps 1 and 4 read.
- Protocol.EvacuateSatellite: the condition is always written; when that write fails, the evacuation goes on unrecorded, and the limit holds for the conditions on record only.
- The strategic merge half of bare pod patches and the choice between the two halves: its meaning depends on schemas that are not part of this model.
- PodPatch.ExactIffCarried: numbers are exact here; values are decoded into interfaces, hence into 64-bit floating point numbers (`pkg/utils/jsonpatch.go`), so integers beyond 2^53 may change although pointer and value are fine.
- PodPatch.PatchRelocates: pointers that are not rooted are errors, as RFC 6901 says; a library that reads them leniently is not modelled.
- KeyList.RoundTrip: the reader recognizes lists as the writer prints them; JSON with other white space, surrogate escapes or other elements, which only foreign writers could leave behind, counts as no list.
- Properties.MakePropertiesModification: the keys to delete are a set; their order and repetitions in the request are not modelled.
- What becomes of a deleted PersistentVolumeClaim, and volumes that vanish between list and update: a deletion marks the PersistentVolume, a claim only counts by whether its deletion fails, and updates either happen or fail.
- The Evicted flag of LINSTOR nodes, network interfaces, capacity and status fields: no part in the properties proved.
- The errors of single requests in the node connection pass: the pass modelled is the one in which they succeed, for one cluster at a time, with connections keyed by the pair of names.
- What LINSTOR adds to a storage pool on its own when it is registered: a new pool has the properties it was registered with.
- Warnings of the storage pool webhook and the arguments for creating volume groups and zpools: they do not decide acceptance.
- Conditions.Collection.Add: one method with a reason stands for the six Add methods, which differ in their constants only.
- The list ToConditions makes of the collected conditions: it copies and sorts the entries.
- The choice of satellites and limits by the LinstorCluster controller beyond the sort of configurations, generated code, commands, charts and documentation: I/O or easy members only.
