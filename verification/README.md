# Verified model of the template request controller and the template engine

A VirtualMachineTemplateRequest asks for a template of an existing virtual machine. Its controller takes a snapshot of
the VM, clones the snapshot's volumes into DataVolumes, rewrites the VM's spec so that it refers to the clones, writes a
VirtualMachineTemplate, hands the clones over to it and deletes the snapshot. The template engine later turns that
template into a VirtualMachine: it merges and generates parameter values, checks references and substitutes them in
place. This project models both, and the string functions they rest on, and proves what they promise.

- `Cluster`, `Conditions`, `Reconciler`: the request controller as a step relation over a keyed store. Each API call is
  one atomic step that may fail and end the pass, the process may crash between any two, and the user, the snapshot, CDI
  and template controllers and the availability poll act in between.
- `Safety`, `History`, `Guarantees`, `Convergence`: the invariant of that relation, what a state owes to earlier states
  of its run, what both mean for a user, and how many undisturbed passes it takes to get to Ready from wherever a run was
  cut off. `Causes` says when a request becomes terminal; `Witnesses` holds runs that show why two of the guarantees say
  no more than they do.
- `SpecRewrite`, `EndToEnd`: the rewrite of the VM spec, and what becomes of the template it yields when the process
  endpoint handles it.
- `Substitution`, `Json`, `Visit`, `Parameters`, `Processor`: the template engine. `Visit` works on slices and maps as
  shared cells that are edited in place, and ties them to the trees they spell.
- `Alphabet`, `Generator`: the expression generator and its tokeniser.
- `Naming`, `Hashing`, `Bits`, `Text`, `Wrappers`: stable names, their 32-bit FNV-1a hash and its arithmetic, searching
  and replacing in strings, and optional values.

What the controller model takes for granted: one pass per request at a time, and the poll only between passes, since the
controller is started when polling ends; reads return the current store; a status patch is written as a whole or not at
all; the spec is immutable; every object is changed atomically under its key. Labels with a request's UID are put on
objects by its controller alone, a DataVolume that is Ready stays Ready, nobody else deletes the request's snapshot or
template, and nobody deletes its DataVolumes while the request exists. The convergence theorem assumes besides that names
do not clash, that other controllers finish their work between passes, that a content which could be used goes on listing
the same volumes and that no call fails any more.

Where the obvious claim is false of the code, the code is kept and the claim is bounded: replace-first can hit
substituted text (`Substitution.HitsOwnIffUnshadowed`), colliding keys are last-wins (`Json.EntryCountIsConservedIff`,
`EndToEnd.CollidingKeys`), the snapshot is deleted by name alone (`Convergence.PassTakesForeignIff`,
`Witnesses.ForeignSnapshotIsTaken`), the TTL runs from the delivery and not from the instant at which Ready becomes
visible (`Witnesses.StandsInFullIff`, `Witnesses.LatePatch`), shared or nameless DataVolumes and repeated volume
names break the rewrite (`SpecRewrite.VolumeResolvesIff`), an untouched template can take the name of a derived one
(`EndToEnd.VolumeMeetsOneTemplateIff`, `EndToEnd.OriginalTakesTheName`), a literal run swallows the start of a range
(`Alphabet.ReadAsMeantIff`), `\A` can draw an expression (`Generator.RoundLowersBracketsIff`,
`Generator.SelfReproducing`). The classes `\w` and
`\a` hold the digits too, as the code has them; the comment above the type says otherwise.

## Model

| member | source | states |
|---|---|---|
| `Cluster.LoopsAgree` | internal/controller/virtualmachinetemplaterequest_controller.go:364-422 | the clone and readiness loops and the spec rewrite go over the same volumes in the same order |
| `Conditions.TtlFits` | internal/controller/virtualmachinetemplaterequest_controller.go:233-233 | an int32 number of seconds, in nanoseconds, never overflows an int64 duration |
| `Conditions.RequeueIsExact` | internal/controller/virtualmachinetemplaterequest_controller.go:234-243 | an early TTL check asks to be woken at the very instant from which a later check deletes, and every check before that waits again |
| `Conditions.EveryEndingIsConsistent` | internal/controller/virtualmachinetemplaterequest_controller.go:569-594 | each way a pass can end writes conditions that agree with each other, and Ready=True only after a ready template |
| `Conditions.TransitionTimes` | internal/controller/virtualmachinetemplaterequest_controller.go:596-609 | a condition keeps its transition time while its status stays and is stamped anew when it changes |
| `Safety.HandOver` | internal/controller/virtualmachinetemplaterequest_controller.go:529-545 | a volume controlled by the request ends up with the template as its only controller; one the template already controls is recognised and left alone |
| `Safety.SucceedHolds` | internal/controller/virtualmachinetemplaterequest_controller.go:115-184 | every successful API call keeps the invariant: finalizer before snapshot, one controller per volume, consistent status, Ready only when all is delivered |
| `Safety.FailHolds` | internal/controller/virtualmachinetemplaterequest_controller.go:139-146 | any API call may fail at any point and the pass still ends inside the invariant |
| `Safety.PollHolds` | internal/controller/vmtr_availability_controller.go:114-141 | the availability poll, a second writer of the same conditions, keeps the invariant |
| `Safety.EnvHolds` | internal/controller/virtualmachinetemplaterequest_controller.go:201-219 | deletion by the user at any instant, and whatever the snapshot, CDI and template controllers report, keep the invariant |
| `Safety.RunHolds` | internal/controller/virtualmachinetemplaterequest_controller.go:115-184 | the invariant holds in every state of every run, over all interleavings of calls, failures, crashes, polls and foreign steps |
| `Guarantees.NoSnapshotOutlivesItsRequest` | internal/controller/virtualmachinetemplaterequest_controller.go:126-219 | in every reachable state a request whose snapshot exists still exists and carries the cleanup finalizer |
| `Guarantees.SnapshotIsOnlyDeletedWhenSpent` | internal/controller/virtualmachinetemplaterequest_controller.go:172-181 | a request's snapshot disappears only when its template exists or the request is being deleted |
| `Guarantees.ForeignSnapshotGoesIff` | internal/controller/virtualmachinetemplaterequest_controller.go:424-430 | a successful call takes away a snapshot of somebody else iff it is one of the two delete calls, which check no label |
| `Convergence.PassTakesForeignIff` | internal/controller/virtualmachinetemplaterequest_controller.go:424-430 | exactly when a pass takes somebody else's snapshot that holds the name, told from the store beforehand: the request is valid and is either being deleted with its finalizer on or has its template without being terminal |
| `Guarantees.ForeignSnapshotsAreSafeIff` | internal/controller/virtualmachinetemplaterequest_controller.go:424-430 | over whole runs: no foreign snapshot is ever taken iff none holds the name when a delete call is made, and at every instant at which one is taken the store meets that same condition |
| `Witnesses.ForeignSnapshotIsTaken` | internal/controller/virtualmachinetemplaterequest_controller.go:201-219 | a run in which a request that never had a snapshot takes somebody else's when it is deleted |
| `Guarantees.TemplateNeedsReadyClones` | internal/controller/virtualmachinetemplaterequest_controller.go:292-328 | over whole runs: the template comes into being only when each non-backend volume of the content that the request's own, ready snapshot named has an existing, UID-labelled, Ready clone |
| `Guarantees.TemplateStandsForReadyClones` | internal/controller/virtualmachinetemplaterequest_controller.go:364-422 | at every later instant of the run, while the request exists, the clones of such a content are still there and Ready |
| `Guarantees.NoCloneLosesItsSource` | internal/controller/virtualmachinetemplaterequest_controller.go:292-328 | over whole runs: unless the request is being deleted, its snapshot goes away only when every non-backend volume of a content that it named, being ready, has a Ready clone |
| `History.ContentIsRecorded` | internal/controller/virtualmachinetemplaterequest_controller.go:342-362 | whatever content a pass works on was read, earlier in the run, under the name that the request's own, ready snapshot gave |
| `History.ContentIsLookedUpIff` | internal/controller/virtualmachinetemplaterequest_controller.go:282-295 | exactly when a pass goes on from the snapshot: it carries the request's UID, its Ready condition is True and it names a content; a snapshot in progress is waited for |
| `History.CloneKeepsItsSource` | internal/controller/virtualmachinetemplaterequest_controller.go:388-395 | over whole runs: every volume of the request was created from the very snapshot that such a content names for a backup of that clone name, and keeps that source |
| `History.NeverPanics` | internal/controller/virtualmachinetemplaterequest_controller.go:388-388 | no run dereferences a missing snapshot name: the check of the whole content in another function covers each clone |
| `History.ReadyIsStamped` | internal/controller/virtualmachinetemplaterequest_controller.go:596-609 | over whole runs: the transition time of Ready=True is the clock of an earlier pass about to delete the snapshot for a ready template, and the patch landed after that |
| `Guarantees.OneControllerEach` | internal/controller/virtualmachinetemplaterequest_controller.go:388-395 | at every instant each volume of the request has exactly one controller, the request or the template it created |
| `Guarantees.ControlMovesOneWay` | internal/controller/virtualmachinetemplaterequest_controller.go:520-548 | no step takes control of a volume away from the template |
| `Guarantees.TemplateKeepsControl` | internal/controller/virtualmachinetemplaterequest_controller.go:520-548 | over whole runs: a volume the template has taken over stays while the request does, and is the template's whenever it is seen again |
| `Guarantees.ReadyMeansDelivered` | internal/controller/virtualmachinetemplaterequest_controller.go:733-745 | whenever Ready=True is written or stands, all volumes are the template's, templateRef names a template with the request's UID, and no snapshot of the request remains |
| `Guarantees.StatusIsAlwaysConsistent` | internal/controller/virtualmachinetemplaterequest_controller.go:569-594 | in every reachable state Ready=True iff Progressing=False/Reconciled, and any other Progressing=False means Ready=False |
| `Guarantees.TerminalIsAbsorbing` | internal/controller/virtualmachinetemplaterequest_controller.go:550-556 | once Progressing is False no step of anybody changes the status again |
| `Guarantees.TerminalIsLeftAlone` | internal/controller/virtualmachinetemplaterequest_controller.go:134-137 | until a terminal request is deleted, controller and poll leave snapshot, volumes and template alone |
| `Guarantees.TerminalStaysTerminal` | internal/controller/virtualmachinetemplaterequest_controller.go:134-157 | over whole runs: the status of a terminal request is the same at every later instant at which it exists |
| `Causes.EndsForGoodIff` | internal/controller/virtualmachinetemplaterequest_controller.go:115-184 | exactly when a call that succeeds ends a request's passes for good: invalid spec, foreign object, failed snapshot or volume, missing name, VM or template spec, existing template, or a ready template |
| `Causes.CausesAreReported` | internal/controller/virtualmachinetemplaterequest_controller.go:569-594 | what such a request is told: InvalidConfiguration, Failed, or Reconciled with Ready=True |
| `Causes.WaitingIsReported` | internal/controller/virtualmachinetemplaterequest_controller.go:633-745 | what a waiting request is told: Ready=False/Waiting and Progressing=True, with the reason of each waiting branch |
| `Causes.ConflictsAreReported` | internal/controller/virtualmachinetemplaterequest_controller.go:569-578 | what a request is told when an object to be created is there already or one to be read is gone; a missing clone is no error and leaves Ready as it was |
| `Causes.ConflictsEndThePass` | internal/controller/virtualmachinetemplaterequest_controller.go:331-340 | an object that turns up where one is to be created ends the pass and is not touched |
| `Causes.FailureIsRetried` | internal/controller/virtualmachinetemplaterequest_controller.go:569-578 | no failed call and no poll ever makes a request terminal: a failure is reported as Ready=False/Failed with Progressing=True/Reconciling, and tried again |
| `Causes.PollWritesIff` | internal/controller/vmtr_availability_controller.go:125-136 | the poll writes to a request iff it is there, not being deleted and not terminal, and then Ready=False/Waiting and Progressing=True/Waiting |
| `Causes.TerminalHasCause` | internal/controller/virtualmachinetemplaterequest_controller.go:550-594 | over whole runs: a request is terminal only if, at some earlier instant, a call succeeded and found one of those causes |
| `Guarantees.ControllerDeletesOnlyExpired` | internal/controller/virtualmachinetemplaterequest_controller.go:221-244 | the controller itself deletes a request only if Ready is True and its transition time lies at least the TTL back |
| `Guarantees.DeletesExactlyWhenExpired` | internal/controller/virtualmachinetemplaterequest_controller.go:228-243 | between passes, the next pass deletes a Ready request iff its transition time lies the TTL back |
| `Guarantees.TtlRunsFromDelivery` | internal/controller/virtualmachinetemplaterequest_controller.go:221-244 | over whole runs: at a TTL deletion the TTL has passed since the delivering pass was about to delete the snapshot, so Ready has stood for the TTL less the time its patch took to land |
| `Witnesses.LatePatch` | internal/controller/virtualmachinetemplaterequest_controller.go:143-146 | for every lag of the status patch there is a run in which the request is deleted as soon as the TTL has passed since the delivery, so that Ready stands for the TTL less the lag, or for no time at all |
| `Witnesses.StandsInFullIff` | internal/controller/virtualmachinetemplaterequest_controller.go:221-244 | Ready is sure to stand for the whole TTL in every run with a given lag of the patch iff that lag or the TTL is zero |
| `Guarantees.FailedRequestsStay` | internal/controller/virtualmachinetemplaterequest_controller.go:228-231 | a failed request is never deleted by the controller, whatever its TTL |
| `Guarantees.ReadyTransitionIsFixed` | internal/controller/virtualmachinetemplaterequest_controller.go:596-609 | over whole runs: Ready, once True, stays True with the same transition time, so the TTL runs from one fixed instant |
| `Convergence.OkGetsOn` | internal/controller/virtualmachinetemplaterequest_controller.go:115-184 | every successful call brings a pass nearer to its end, so passes are finite however many volumes there are |
| `Convergence.CloneLoop` | internal/controller/virtualmachinetemplaterequest_controller.go:364-399 | an undisturbed clone loop leaves every volume with a clone of this request and only adds objects |
| `Convergence.CheckLoopWaits` | internal/controller/virtualmachinetemplaterequest_controller.go:401-422 | if some clone is not ready, the readiness loop ends the pass at the first such clone and goes on waiting, without giving up |
| `Convergence.PatchLoop` | internal/controller/virtualmachinetemplaterequest_controller.go:520-548 | in whatever order the volumes are listed, the handover changes nothing but their owners and comes to the snapshot's deletion |
| `Convergence.PassGetsCloser` | internal/controller/virtualmachinetemplaterequest_controller.go:264-329 | a pass without failures makes the request Ready or lowers its distance: nothing, snapshot, clones, template |
| `Convergence.SettlingIsPossible` | internal/controller/virtualmachinetemplaterequest_controller.go:264-329 | the convergence theorem assumes nothing in vain: from any store the other controllers can finish their work |
| `Convergence.ReadyWithinFourPasses` | internal/controller/virtualmachinetemplaterequest_controller.go:115-184 | crash convergence: from any reachable non-terminal state, wherever the last pass was cut off and however far the external objects were, one of the next four undisturbed passes makes the request Ready |
| `Convergence.DeletionCompletes` | internal/controller/virtualmachinetemplaterequest_controller.go:201-219 | one pass without failures completes a deletion: neither the request nor a snapshot of its own remains |
| `SpecRewrite.GetBackendStoragePvcName` | internal/controller/virtualmachinetemplaterequest_controller.go:506-518 | returns the first backup whose name contains the marker, or the empty name iff there is none |
| `SpecRewrite.BackendIsFirst` | internal/controller/virtualmachinetemplaterequest_controller.go:506-518 | what the three loops skip is that first backup |
| `SpecRewrite.ClonedIsExact` | internal/controller/virtualmachinetemplaterequest_controller.go:369-374 | the loops skip the backend volume and nothing else |
| `SpecRewrite.SecondBackendIsCloned` | internal/controller/virtualmachinetemplaterequest_controller.go:506-518 | in any list, a further backend volume under another name is cloned like a disk |
| `SpecRewrite.StateOfVmIsBackend` | internal/controller/virtualmachinetemplaterequest_controller.go:512-514 | a volume persistent-state-for-vm1 is skipped and the disk beside it is cloned |
| `SpecRewrite.VmSpec.TransformVolume` | internal/controller/virtualmachinetemplaterequest_controller.go:859-887 | the first volume of the name, and no other, is pointed at a DataVolume named after the parameter, and the name it used so far is returned |
| `SpecRewrite.VmSpec.TransformOrAddDvt` | internal/controller/virtualmachinetemplaterequest_controller.go:889-918 | the first template of the name becomes a clone of the PVC under the suffixed name; without one a template is appended |
| `SpecRewrite.VmSpec.RewriteOne` | internal/controller/virtualmachinetemplaterequest_controller.go:457-461 | volume and template are rewritten under the same derived name, also when the volume is not part of the VM |
| `SpecRewrite.VmSpec.Rewrite` | internal/controller/virtualmachinetemplaterequest_controller.go:448-462 | the in-place loop computes the rewrite of all cloned backups, in order |
| `SpecRewrite.RewriteKeepsReferences` | internal/controller/virtualmachinetemplaterequest_controller.go:448-462 | for distinct names: volume names and order stay, each backed-up volume uses exactly one template whose source is its own clone, everything else is identical |
| `SpecRewrite.OtherVolumesTakeTheirName` | internal/controller/virtualmachinetemplaterequest_controller.go:869-881 | a backed-up volume that used no DataVolume gives its own name, suffixed, to the one it is moved to, and to its template |
| `SpecRewrite.DataVolumesTakeTheSuffix` | internal/controller/virtualmachinetemplaterequest_controller.go:869-881 | one that used a DataVolume keeps that name, suffixed |
| `SpecRewrite.RewriteExactly` | internal/controller/virtualmachinetemplaterequest_controller.go:889-918 | for distinct names: one clone template per backup, in the place of the first original of its derived name if there is one, and exactly the other originals besides |
| `SpecRewrite.VolumeResolvesIff` | internal/controller/virtualmachinetemplaterequest_controller.go:859-918 | exactly when a backed-up volume meets one template with its own clone: it is the first volume of its name, its DataVolume has a name and no other backup derives that name |
| `SpecRewrite.SecondOfANameIsMissed` | internal/controller/virtualmachinetemplaterequest_controller.go:860-884 | of two volumes that share a name the second goes on using what it used |
| `SpecRewrite.BackedUpTwice` | internal/controller/virtualmachinetemplaterequest_controller.go:448-462 | a volume listed twice among the backups has the suffix twice, and so has its template |
| `SpecRewrite.SharedDataVolumeBreaks` | internal/controller/virtualmachinetemplaterequest_controller.go:907-917 | two volumes on one DataVolume end up with two templates of one name and different sources |
| `SpecRewrite.NamelessDataVolumeBreaks` | internal/controller/virtualmachinetemplaterequest_controller.go:457-460 | a DataVolume without a name leaves its volume pointing at no template |
| `EndToEnd.SuffixTakesTheName` | internal/controller/virtualmachinetemplaterequest_controller.go:876-879 | for any parameter value, a reference-free name with the suffix becomes that name, a hyphen and the value |
| `EndToEnd.RefFreeTreeIsFixed` | staging/src/kubevirt.io/virt-template-engine/template/processor.go:87-90 | a tree without reference text comes out of substitution as it went in |
| `EndToEnd.GeneratedTemplateWorks` | internal/controller/virtualmachinetemplaterequest_controller.go:817-848 | for any source without reference text, also one whose names are shared, repeated or empty, and any value of NAME, substitution has exactly one outcome: suffixed names take the value, every other string is unchanged |
| `EndToEnd.GeneratedTemplateValidates` | internal/controller/virtualmachinetemplaterequest_controller.go:817-848 | for any such source the generated template refers to exactly the parameters it defines, so it validates without error or warning, also where the rewrite has broken a volume |
| `EndToEnd.GeneratedTemplateProcesses` | internal/apiserver/storage/virtualmachinetemplate/process.go:79-98 | for any such source, through merge, validation and processing: every supplied or drawn name yields the rewritten VM under that name; only an empty name or an unconvertible VM fails |
| `EndToEnd.DrawnNameIsVmName` | internal/controller/virtualmachinetemplaterequest_controller.go:837-844 | what the generator draws for NAME is not empty: "vm-" and five lower-case letters or digits |
| `EndToEnd.CloneNamesAreRefFree` | internal/controller/virtualmachinetemplaterequest_controller.go:928-930 | clone names, being DNS labels, spell no reference |
| `EndToEnd.CloneNamesDiffer` | internal/controller/virtualmachinetemplaterequest_controller.go:928-930 | clones of volumes whose names are equally long and differ in one byte never share a name |
| `EndToEnd.RequestedTemplateProcesses` | internal/apiserver/storage/virtualmachinetemplate/process.go:79-98 | with stable clone names and the generator's own draws: the endpoint never asks for a name and answers with the rewritten VM under the supplied name or under a drawn vm- name |
| `EndToEnd.VolumesMeetTheirTemplates` | internal/controller/virtualmachinetemplaterequest_controller.go:859-918 | for any value of NAME, each backed-up volume of the resulting VM and the template of its clone carry the same DataVolume name |
| `EndToEnd.VolumeMeetsOneTemplateIff` | internal/controller/virtualmachinetemplaterequest_controller.go:859-918 | and it is the only template of that name iff no original template that the rewrite leaves alone ends up under the same name |
| `EndToEnd.OriginalTakesTheName` | internal/controller/virtualmachinetemplaterequest_controller.go:907-917 | a concrete VM and name for which two templates end up under one name, although all source names are distinct |
| `Substitution.FindAllIsExact` | staging/src/kubevirt.io/virt-template-engine/template/template.go:40-40 | the left-to-right scan finds a reference iff its text occurs anywhere in the string |
| `Substitution.SubstituteParameters` | staging/src/kubevirt.io/virt-template-engine/template/template.go:159-188 | the replace-first loop computes the sequential substitution, with its typed form and its undefined-parameter error |
| `Substitution.CollectReferencedParameters` | staging/src/kubevirt.io/virt-template-engine/template/template.go:206-220 | the collector gathers the keys of both syntaxes |
| `Substitution.CollectedIsExact` | staging/src/kubevirt.io/virt-template-engine/template/template.go:206-220 | a key is collected iff ${key} occurs in the string or ${{key}} is the whole string |
| `Substitution.TypedRefHoldsNoRef` | staging/src/kubevirt.io/virt-template-engine/template/template.go:165-177 | the two syntaxes never mix: a typed reference contains no plain one |
| `Substitution.TypedReferenceIsUnquoted` | staging/src/kubevirt.io/virt-template-engine/template/template.go:165-171 | ${{key}} becomes its value as a non-string, and no other string ever does |
| `Visit.TypedKeyMustBeString` | staging/src/kubevirt.io/virt-template-engine/template/visit.go:116-120 | in key position the decoded value must be a string; null and every other kind are told apart |
| `Visit.TypedReferenceDecodes` | staging/src/kubevirt.io/virt-template-engine/template/visit.go:158-173 | in a tree the only image of ${{key}} is the decoded value, or the value as a string if it does not decode; null cannot take its place |
| `Substitution.SubstituteIffCollectedDefined` | staging/src/kubevirt.io/virt-template-engine/template/template.go:159-220 | substitution succeeds iff every collected key is defined; a failure names a collected, undefined key |
| `Substitution.HitsOwnIffUnshadowed` | staging/src/kubevirt.io/virt-template-engine/template/template.go:177-185 | every round of replace-first hits its own match iff no match is spelled out by the text substituted in front of it |
| `Substitution.UnshadowedAgrees` | staging/src/kubevirt.io/virt-template-engine/template/template.go:177-185 | while no match is shadowed, sequential and simultaneous substitution agree |
| `Substitution.InTurnRefinesOnePass` | staging/src/kubevirt.io/virt-template-engine/template/template.go:159-188 | whenever the simultaneous result spells no further reference, the sequential loop returns exactly it |
| `Substitution.ValuesCanShadowReferences` | staging/src/kubevirt.io/virt-template-engine/template/template.go:177-185 | a value that spells the next reference is itself rewritten, and the reference is left standing |
| `Substitution.ShadowingWitness` | staging/src/kubevirt.io/virt-template-engine/template/template.go:177-185 | a concrete input on which the two substitutions differ |
| `Json.ImageIsMapTree` | staging/src/kubevirt.io/virt-template-engine/template/visit.go:110-143 | when no two transformed keys collide, the one possible outcome of a visit is the recursive functional map |
| `Json.EntryCountIsConservedIff` | staging/src/kubevirt.io/virt-template-engine/template/visit.go:116-140 | a visit keeps the number of entries of a map iff no two transformed keys collide, and never adds one |
| `Json.CollisionLosesAnEntry` | staging/src/kubevirt.io/virt-template-engine/template/visit.go:126-126 | of two entries whose keys collide one is lost, and either may be the one, as the walk over the map decides |
| `EndToEnd.CollidingKeys` | staging/src/kubevirt.io/virt-template-engine/template/visit.go:126-126 | a concrete map with two parameterised keys that has two different outcomes, each with one entry |
| `Json.EntryStringsAnyOrder` | staging/src/kubevirt.io/virt-template-engine/template/visit.go:116-130 | the strings visited in a map do not depend on the order in which its keys are taken |
| `Visit.VisitElement` | staging/src/kubevirt.io/virt-template-engine/template/visit.go:146-188 | the value stored back spells the image of the tree; every original string and key is transformed exactly once; it fails iff some string or key cannot be transformed |
| `Visit.VisitSlice` | staging/src/kubevirt.io/virt-template-engine/template/visit.go:81-92 | a slice is rewritten in place, item by item, into the image of its tree |
| `Visit.VisitItem` | staging/src/kubevirt.io/virt-template-engine/template/visit.go:83-88 | one round replaces one item and leaves the cells of all others alone |
| `Visit.VisitMap` | staging/src/kubevirt.io/virt-template-engine/template/visit.go:110-143 | a map is rewritten in place into the image of its tree, in any key order; substituted text is never revisited |
| `Visit.VisitEntry` | staging/src/kubevirt.io/virt-template-engine/template/visit.go:116-130 | one round transforms one key and its value and adds them to the updates, where a colliding key is overwritten |
| `Visit.StoreUpdates` | staging/src/kubevirt.io/virt-template-engine/template/visit.go:132-140 | delete-then-set ends with exactly the updates, for any overlap of old and new keys |
| `Visit.CollectingChangesNothing` | staging/src/kubevirt.io/virt-template-engine/template/template.go:192-202 | the collecting visitor succeeds on every tree and its only image is the tree itself |
| `Visit.CollectAllReferencedParameters` | staging/src/kubevirt.io/virt-template-engine/template/template.go:192-202 | collects exactly the keys referred to by the tree's strings and keys, and leaves the object spelling the same tree |
| `Parameters.MergeParameters` | staging/src/kubevirt.io/virt-template-engine/template/parameters.go:31-47 | in any iteration order: fails iff a supplied name is unknown, else each value lands on the first parameter of its name and nothing else changes |
| `Parameters.MergedKeepsNames` | staging/src/kubevirt.io/virt-template-engine/template/parameters.go:31-47 | merging keeps number, order and names of the parameters |
| `Parameters.GenerateParameterValues` | staging/src/kubevirt.io/virt-template-engine/template/template.go:49-100 | either all parameters are in order and the map holds each one filled in, or the first offender is reported with its problem |
| `Processor.RemoveHardcodedNamespace` | staging/src/kubevirt.io/virt-template-engine/template/template.go:135-146 | in place: a namespace that is set and refers to no parameter is dropped, and nothing else in the object changes |
| `Processor.NamespaceSurvivesIff` | staging/src/kubevirt.io/virt-template-engine/template/template.go:141-143 | exactly which namespaces survive: not a string, empty, or holding a ${key}; all other entries of metadata and object stay as they are |
| `Processor.FixedNamespaceGoes` | staging/src/kubevirt.io/virt-template-engine/template/template.go:141-143 | a namespace without a dollar sign goes |
| `Processor.ParameterisedNamespaceStays` | staging/src/kubevirt.io/virt-template-engine/template/template.go:141-143 | the namespace ${NS} stays |
| `EndToEnd.FixedNamespaceNeverShows` | staging/src/kubevirt.io/virt-template-engine/template/processor.go:79-85 | a processed VM whose field names refer to no parameter has its own fields and no fixed namespace |
| `EndToEnd.ProcessedMessage` | staging/src/kubevirt.io/virt-template-engine/template/processor.go:109-115 | the message is the template's with every reference replaced at once, if the result spells no further one |
| `Processor.ValidateParameterReferences` | staging/src/kubevirt.io/virt-template-engine/template/parameters.go:52-97 | warns about exactly the parameters nobody refers to and rejects exactly the references nobody defines, in the tree and in the message |
| `Processor.StrippingAddsNoString` | staging/src/kubevirt.io/virt-template-engine/template/template.go:135-146 | stripping the namespace only takes strings away, so validation before it covers processing after it |
| `Processor.BlamedIsReferredTo` | staging/src/kubevirt.io/virt-template-engine/template/template.go:149-153 | an undefined-parameter error of the visit names a key that the unstripped tree refers to |
| `Processor.Process` | staging/src/kubevirt.io/virt-template-engine/template/processor.go:68-118 | which outcome processing has, error by error and in the order of work, against the functional meaning of each step |
| `Processor.UndefinedIsReferredTo` | staging/src/kubevirt.io/virt-template-engine/template/processor.go:68-118 | processing fails with an undefined parameter only for a template that refers to a parameter it does not define |
| `Processor.ProcessTemplate` | internal/apiserver/storage/virtualmachinetemplate/process.go:79-98 | which answer the endpoint gives: conflict, invalid VM, the exact set of undefined references, or the outcome for the merged parameters |
| `Processor.ValidatedNeverUndefined` | internal/apiserver/storage/virtualmachinetemplate/process.go:87-98 | validator soundness: what passes merging and validation never fails with an undefined parameter, whatever values are supplied or generated |
| `Alphabet.RemoveDuplicates` | staging/src/kubevirt.io/virt-template-engine/template/generator/expressionvalue.go:178-182 | each character of the input once, in increasing order |
| `Alphabet.IncreasingIsUnique` | staging/src/kubevirt.io/virt-template-engine/template/generator/expressionvalue.go:178-182 | that determines the result: an increasing string is fixed by its characters |
| `Alphabet.GetAlphabetFromRanges` | staging/src/kubevirt.io/virt-template-engine/template/generator/expressionvalue.go:124-158 | fails iff there is no token or some range is bad, with the first error; else the increasing string of all tokens' characters |
| `Alphabet.ClassesMean` | staging/src/kubevirt.io/virt-template-engine/template/generator/expressionvalue.go:135-142 | the four classes, character by character: word characters, digits, letters and digits, all other visible ASCII |
| `Alphabet.RangeIsAcceptedIff` | staging/src/kubevirt.io/virt-template-engine/template/generator/expressionvalue.go:161-175 | a range is accepted iff both ends are alphanumeric and in order, lower case before upper case before digits, and then holds what lies between; what is wrong otherwise is told apart |
| `Alphabet.RawRoundTrip` | staging/src/kubevirt.io/virt-template-engine/template/generator/expressionvalue.go:124-158 | a rendered list of classes, ranges and literal runs is read back item by item; it fails iff a range is reversed |
| `Alphabet.RoundTrip` | staging/src/kubevirt.io/virt-template-engine/template/generator/expressionvalue.go:124-182 | the alphabet of a rendered list is non-empty, strictly increasing and holds exactly the characters that some item stands for |
| `Alphabet.ItemsMean` | staging/src/kubevirt.io/virt-template-engine/template/generator/expressionvalue.go:131-151 | which characters a list of items stands for, and when a range is reversed, said character by character |
| `Alphabet.LiteralSwallowsRangeStart` | staging/src/kubevirt.io/virt-template-engine/template/generator/expressionvalue.go:44-44 | a literal run directly before a range swallows its start, whatever follows, so the range, even a reversed one, is not read as a range |
| `Alphabet.AsReadIsExact` | staging/src/kubevirt.io/virt-template-engine/template/generator/expressionvalue.go:124-158 | for any list of items: the tokeniser yields what the list says once literals are merged and have swallowed the ranges behind them |
| `Alphabet.ReadAsMeantIff` | staging/src/kubevirt.io/virt-template-engine/template/generator/expressionvalue.go:44-44 | exactly when any rendered list is read as meant: a reversed range that is not swallowed, or none reversed and all characters inside the swallowed ranges there anyway |
| `Generator.MatchAtIsUnique` | staging/src/kubevirt.io/virt-template-engine/template/generator/expressionvalue.go:43-43 | at most one expression starts at a position |
| `Generator.FindIsLeftmost` | staging/src/kubevirt.io/virt-template-engine/template/generator/expressionvalue.go:76-79 | the search finds the leftmost expression, wherever another one may be |
| `Generator.ReplaceHitsLeftmostMatch` | staging/src/kubevirt.io/virt-template-engine/template/generator/expressionvalue.go:202-202 | replacing the expression's text once rewrites exactly the leftmost matched interval |
| `Generator.TameRangesAreWords` | staging/src/kubevirt.io/virt-template-engine/template/generator/expressionvalue.go:131-151 | ranges without the class \A yield word characters only, so no bracket, brace or backslash can be drawn |
| `Generator.RoundLowersBracketsIff` | staging/src/kubevirt.io/virt-template-engine/template/generator/expressionvalue.go:75-95 | whatever is drawn, a round lowers the number of opening brackets by one iff the alphabet of the leftmost expression holds none |
| `Generator.BracketFreeRunsEnd` | staging/src/kubevirt.io/virt-template-engine/template/generator/expressionvalue.go:75-95 | on any input, a run none of whose alphabets holds an opening bracket has as many rounds as brackets disappear |
| `Generator.RoundLowersBrackets` | staging/src/kubevirt.io/virt-template-engine/template/generator/expressionvalue.go:75-95 | a tame text, in which no backslash stands directly before an A or a bracket, loses exactly one bracket in each successful round and stays tame, also for nested forms |
| `Generator.BackslashBracketOpensClass` | staging/src/kubevirt.io/virt-template-engine/template/generator/expressionvalue.go:44-44 | the second half of that guard is needed: a nested expression behind a backslash can put the class \A together |
| `Generator.TameRunsEnd` | staging/src/kubevirt.io/virt-template-engine/template/generator/expressionvalue.go:75-95 | for all draws: rounds made plus brackets left is the number of brackets at the start, so every run ends |
| `Generator.ExtractRangesAndLength` | staging/src/kubevirt.io/virt-template-engine/template/generator/expressionvalue.go:103-120 | cutting at the last brace recovers ranges and length; ranges are judged before the length, which must be 1 to 255 |
| `Generator.LengthReadsBack` | staging/src/kubevirt.io/virt-template-engine/template/generator/expressionvalue.go:111-117 | a length in decimal is accepted iff it lies between 1 and 255, and means itself |
| `Generator.FirstErrorIsReported` | staging/src/kubevirt.io/virt-template-engine/template/generator/expressionvalue.go:81-90 | for any text that looks like an expression, right or wrong: which error its round reports, in the order of the checks, and that nothing else is ever wrong |
| `Generator.ReplaceWithGeneratedValue` | staging/src/kubevirt.io/virt-template-engine/template/generator/expressionvalue.go:186-203 | exactly `length` characters of the alphabet take the expression's place, for every draw |
| `Generator.RewriteOnce` | staging/src/kubevirt.io/virt-template-engine/template/generator/expressionvalue.go:81-94 | the loop body makes a round or reports the error of the leftmost expression; the alphabet is never empty |
| `Generator.GenerateValue` | staging/src/kubevirt.io/virt-template-engine/template/generator/expressionvalue.go:74-98 | the loop returns the end of a run or the error that stopped it, for every draw; on tame inputs it stops within as many rounds as there are brackets |
| `Generator.RoundOnPieces` | staging/src/kubevirt.io/virt-template-engine/template/generator/expressionvalue.go:75-95 | a round turns the first expression into characters of its own alphabet and touches nothing else |
| `Generator.ShapeOfRuns` | staging/src/kubevirt.io/virt-template-engine/template/generator/expressionvalue.go:74-98 | a run on literals and valid bracket-free expressions never fails and is done after exactly as many rounds as expressions; then the literals stand in place and each expression is its stated number of its own characters |
| `Generator.SelfReproducing` | staging/src/kubevirt.io/virt-template-engine/template/generator/expressionvalue.go:36-36 | the guard is needed: [\A\w]{10} can draw its own text, so a run may go on for ever |
| `Generator.GeneratedNames` | internal/controller/virtualmachinetemplaterequest_controller.go:837-844 | every generated NAME is "vm-" and five lower-case letters or digits |
| `Hashing.Hasher.Write` | internal/apimachinery/naming.go:65-69 | writing continues the hash from the state reached so far |
| `Hashing.ComputeHash` | internal/apimachinery/naming.go:62-73 | streaming base and inputs gives the one-shot FNV-1a hash of their concatenation, in eight hex digits |
| `Hashing.FnvAppend` | internal/apimachinery/naming.go:65-69 | hashing in pieces equals hashing at once |
| `Naming.GetStableName` | internal/apimachinery/naming.go:38-60 | prefix, truncate, trim, validate and fall back amount to a stem chosen by the base alone, a hyphen and the hash |
| `Naming.ValidatorSeesTheStem` | internal/apimachinery/naming.go:53-57 | the validator can only object to a byte of the stem, so the fallback does not depend on the inputs |
| `Naming.StableNameIsLegal` | internal/apimachinery/naming.go:38-60 | for all byte strings: a DNS label of section 2.3.1 of RFC 1035 within 63 octets, ending in the hash |
| `Naming.SameBaseSameName` | internal/apimachinery/naming.go:38-60 | for equal bases two names are equal iff their hashes are |
| `Naming.NameDeterminesHash` | internal/apimachinery/naming.go:38-60 | equal names have equal hashes, whatever the bases |
| `Hashing.RoundIsBijective` | internal/apimachinery/naming.go:62-73 | each FNV-1a round has an inverse on the 32-bit states, because the prime is odd |
| `Hashing.FnvKeepsStatesApart` | internal/apimachinery/naming.go:62-73 | two different states never meet again on the same input |
| `Naming.OneByteApartNeverClashes` | internal/apimachinery/naming.go:38-73 | equally long concatenations that differ in exactly one byte never share a stable name |
| `Naming.NeighboursShareBytes` | internal/controller/virtualmachinetemplaterequest_controller.go:928-930 | the limit of that: inputs carry no separator, so bytes may move from one to the next without changing the name |
| `Parameters.AcceptedIff` | staging/src/kubevirt.io/virt-template-engine/template/template.go:49-100 | the parameters are accepted iff they have names, no two the same, and each is given a value, draws one or needs none, not an empty one where one is required; and that is the value it gets |
| `Parameters.ProblemsMean` | staging/src/kubevirt.io/virt-template-engine/template/template.go:58-94 | which problem is reported, in the order of the checks |
| `Processor.ProcessObject` | staging/src/kubevirt.io/virt-template-engine/template/processor.go:79-117 | strip, substitute in place, convert, substitute the message: the outcome for given parameter values |
| `Generator.Prepare` | staging/src/kubevirt.io/virt-template-engine/template/generator/expressionvalue.go:81-90 | the deterministic half of a round: the first error of the expression, or its non-empty alphabet and its length |
| `Convergence.CloneTurn` | internal/controller/virtualmachinetemplaterequest_controller.go:369-396 | one turn of the clone loop leaves one more volume with a clone of this request |
| `Convergence.CheckLoopReady` | internal/controller/virtualmachinetemplaterequest_controller.go:401-422 | when all clones are ready the readiness loop goes through to the template |
| `Convergence.FromNothing` | internal/controller/virtualmachinetemplaterequest_controller.go:271-290 | a first pass creates the snapshot, labelled with the UID, and waits |
| `Convergence.FromSnapshot` | internal/controller/virtualmachinetemplaterequest_controller.go:292-320 | a pass over a ready snapshot leaves a clone for every volume and waits |
| `Convergence.FromClones` | internal/controller/virtualmachinetemplaterequest_controller.go:316-328 | a pass over ready clones writes the template, hands the clones over and deletes the snapshot |
| `Convergence.FromTemplate` | internal/controller/virtualmachinetemplaterequest_controller.go:159-183 | a pass over a ready template makes the request Ready |
| `Convergence.RoundsGetCloser` | internal/controller/virtualmachinetemplaterequest_controller.go:115-184 | after k undisturbed passes that did not end Ready at most 4-k are left |
| `Conditions.RestartIsWorking` | internal/controller/virtualmachinetemplaterequest_controller.go:148-150 | after the reset at the start of a pass Ready cannot be True, so Ready=True is always this pass's own doing |
| `EndToEnd.TurnsVm` | staging/src/kubevirt.io/virt-template-engine/template/processor.go:87-90 | a VM whose names are reference-free or end in the suffix has one image: the same VM with the value in its suffixes |
| `EndToEnd.RewriteStaysTidy` | internal/controller/virtualmachinetemplaterequest_controller.go:448-462 | for any source without reference text the rewrite brings in no reference but the suffix |
| `EndToEnd.RefFreeIffNothingCollected` | staging/src/kubevirt.io/virt-template-engine/template/template.go:206-220 | a string is free of reference text iff nothing is collected from it |
| `EndToEnd.RefFreeIsTidy` | internal/controller/virtualmachinetemplaterequest_controller.go:859-918 | a reference-free name is not mistaken for a derived one and keeps its text |
| `Visit.CollectKeys` | staging/src/kubevirt.io/virt-template-engine/template/template.go:193-199 | the shared set of the collecting closure ends with the keys of all visited strings, in any order |
| `Hashing.HexInjective` | internal/apimachinery/naming.go:72-72 | the eight hex digits determine the 32-bit hash |
| `Hashing.HexReadsBack` | internal/apimachinery/naming.go:72-72 | the digits are the hexadecimal numeral of the hash |
| `Naming.StemEndsInNoHyphen` | internal/apimachinery/naming.go:50-53 | the hyphen in front of the hash is the only one there |
| `Naming.LegalBaseIsItsStem` | internal/apimachinery/naming.go:41-53 | a base that is a legal label of at most 54 bytes is kept as it is |
| `Naming.OtherBaseIsPrefixed` | internal/apimachinery/naming.go:41-44 | a base of legal bytes that does not start with a lower-case letter gets x- in front |
| `Naming.GarbageBaseIsReplaced` | internal/apimachinery/naming.go:54-57 | a base with an illegal byte gives way to obj |
| `Hashing.KnownHashes` | internal/apimachinery/naming.go:62-73 | the published FNV-1a values of the empty text and of a |

## Left out

- Generator.GenerateValue: watches the unbounded loop for any chosen number of rounds, because the loop itself need not end on inputs with `\A`; the relation `IsRun` covers all rounds.
- Convergence.ReadyWithinFourPasses: one of the four passes writes Ready, not necessarily the last, because a TTL of zero lets the next pass delete the request.
- SpecRewrite.VolumeResolvesIff: speaks of backups that are listed once, with distinct clones and names that do not look rewritten, as a snapshot lists them; `BackedUpTwice` shows what a repeated one becomes.
- EndToEnd.GeneratedTemplateWorks: speaks of backups that are listed once, like all results on the generated template; a suffix that stands twice in one name is substituted in turn, which depends on whether the value itself spells the reference.
- Reconcile and its helpers are steps of a relation and not methods that edit objects, so that failures and foreign steps can come between any two calls.
- Caches, watches, work queues, EnqueueRequestByUID, SetupWithManager and patch helper internals: library plumbing around an atomic store.
- A stale owner list in the DataVolume merge patch: the patch applies to the owners of that instant.
- Finalizers of other parties and objects that linger while they terminate: deleting a snapshot removes it at once, deleting a request waits for its own finalizer only.
- A request recreated under the same name: it has another UID and is another request.
- Truncation of transition times to whole seconds, observedGeneration, messages, and conditions with status Unknown.
- ExpandSpec, JSON decoding, conversion to the typed VirtualMachine and random numbers: parameters or arbitrary choices.
- Reflection over typed structs, where a typed reference in a string field is an error: trees have the untyped form of decoded JSON.
- Texts outside ASCII in generator ranges, which the expression pattern does not let through.
- Volume sources other than DataVolume and DataVolumeTemplate specs other than a PVC clone are opaque trees.
- stripUniqueIdentifiers and the label filter of newTemplate: single loops that would only add easy members.
- Setting the GroupVersionKind of the result, field paths, error and log texts.
- REST handlers, webhooks, discovery, conversions between API versions, generated clients and manifests: thin wrappers or configuration.
