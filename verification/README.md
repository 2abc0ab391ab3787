# A verified model of Deployah's deployment logic

Deployah turns an application spec into a Helm release. This project models the parts of it that are
algorithms rather than calls into Helm and Kubernetes, and proves what they promise:

- **Hook scheduling** (`HookGraph`, `HookScheduler`, `Environments`, `TaskValidation`): hook tasks list other
  tasks in `after`. A worklist gives each task a Helm hook weight; a check on the spec makes sure that a
  dependency runs wherever its dependent does. Together: in every environment Helm runs every dependency first.
- **Local cluster lifecycle** (`ClusterLifecycle`, `ClusterOutcomes`, `ClusterCancellation`): `Create`, the Kind
  create it cannot stop, its cleanup goroutine, `Delete` and `Close` as a state machine, with theorems over every run
  of any number of calls.
- **Volume resizing** (`ClusterApi`, `VolumeResize`, `WorkloadGuards`): patch claims, wait, orphan-delete
  StatefulSets, against a cluster that changes between any two calls, any of which may fail; and the deploy-time
  rules that decide which resizes there are.
- **Plan, drift and the nested view** (`Normalize`, `NoiseFields`, `PlanDiff`, `PlanMeaning`, `Drift`,
  `FieldTree`, `FieldTreeNodes`, `FieldRender`, `FieldReadBack`, `MapDetail`): matching two manifests by key, stripping
  bookkeeping in place, subtracting a plan from a cluster's drift, splitting a map into fields and rebuilding its
  nesting in a tree of mutable nodes.
- **Platform policy** (`Profiles`, `Platforms`, `Resolution`): which profiles a component selects, how they
  merge, what checking the merge enforces, and resolving a whole spec.
- **Chart cache and bounded numbers** (`ChartCache`, `BoundedNumbers`): prepared chart directories shared by
  concurrent callers with a cleanup beside them; numbers that must fit 32-bit fields.

`Names`, `Wrappers` and `SpecTypes` hold Go's string order, optional values and the spec's types. A Go map walk is
an arbitrary choice of order; results that are promised to be deterministic are proved not to depend on it. Calls
into Kubernetes, Kind, the disk, the clock and the comparison library are state with arbitrary steps, parameters, or
arbitrary results.

`dafny verify dfyconfig.toml` checks the project.

## Findings

What the code does where its comments, or an obvious reading, say otherwise:

- A cancelled `Create` removes a cluster that was already there: the cleanup deletes by name, whatever Kind answered,
  and even when the configuration was rejected before Kind started (internal/localkube/manager.go:142-160). An
  existing cluster is safe exactly when the call retains on failure (`CreateKeepsExistingCluster`).
- The cleanup of a cancelled call waits for its own Kind only, so it may delete while Kind works for a second call of
  the same name, which then succeeds and loses its cluster (`CleanupCanHitAnotherCreate`). Left to itself a cluster
  is safe exactly when no cancelled call of its name that does not retain may still come to its delete
  (`SafeExactly`).
- The comment on `Create` says a cancelled call returns immediately (internal/localkube/manager.go:108-111). One that
  retains waits for Kind first; a call can return before the wait, exactly when it does not retain
  (`ReturnsAtOnceUnlessRetaining`, with a run for each side).
- An empty map key is stored under `-1` in the nested view, so next to a key `-1` one of the two fields is not shown
  (`EmptyKeyClashes`). The round trip holds exactly when the keys that hold leaves are stored under distinct keys at
  every level (`ExpandThenBuild`).
- With several default domains in one environment the one used depends on the map walk; with one at most it does not
  (`DefaultIsDetermined`). The platform consistency check rules several out.
- Merging profiles is associative as a policy, but as a value ceilings that set nothing can vanish
  (`UnsetCeilingsDiffer`). `MergeIsExactlyHomomorphic` says when they do not; in particular when every ceiling block
  sets cpu or memory (`SetCeilingsMergeExactly`).
- On a platform with profiles, none of them named `default`, a component that asks for `default` gets no error and no
  profile for it (internal/spec/profile.go:68-77). Without a profiles section asking for it is an error, as asking
  for any name is (internal/spec/profile.go:58-65). `AskedIsSelectable` says which lists can be looked up.
- A restart window can be shorter than requested: the threshold is cut at its field's limit (`ClampedWindow`), and
  fractions of a second are cut off before rounding up (`ShortWindow`; the pattern in
  internal/spec/schema/v1-alpha.5/manifest.json:782-794 admits whole seconds only). `WindowCoversRequest` is the exact
  condition on the two durations.
- Resource labels leave out the API version, and the last change with a label hides the others. With two API versions
  of a resource in a plan, drift that is planned is reported and drift that is not is hidden (`VersionsConfuse`).
  `DriftIsRightExactly` says, resource by resource, when the label suffices, and `NoOtherVersionSuffices` that it does
  when the plan has no other version of that resource.
- A cache entry's directory that is replaced (`ReplaceThenCleanUp`), and a chart directory whose preparation fails
  (`Generate`), stay on disk: no cleanup ever comes back to a directory that no entry points to (`LeftBehind`).

## Model

| member | source | states |
|---|---|---|
| `HookScheduler.BuildGraph` | internal/spec/task_after.go:55-68 | The indegrees count every occurrence of an in-phase `after` entry, repeats and self-references included, and the dependents lists are the inverse with the same multiplicity |
| `HookScheduler.RunWorklist` | internal/spec/task_after.go:69-105 | The worklist ends with nothing ready, having weighed a set of tasks closed under what they wait for, each one more than the heaviest of those |
| `HookScheduler.HookWeightsForPhase` | internal/spec/task_after.go:38-116 | Succeeds exactly when the phase has no cycle, with every task's longest chain as its weight; otherwise lists exactly the tasks from which a cycle is reachable, sorted |
| `HookScheduler.AssignHookWeights` | internal/spec/task_after.go:26-36 | Both phases; the first phase with a cycle is the one rejected |
| `HookGraph.RankedIsLongest` | internal/spec/task_after.go:21-25 | Weights that are one above the heaviest dependency are lengths of longest chains, and no such task reaches a cycle |
| `HookGraph.StuckReachesCycle` | internal/spec/task_after.go:104-113 | In a set whose members all wait for a member, every member reaches a cycle |
| `HookGraph.PhaseWeightsUnique` | internal/spec/task_after.go:38-116 | The weights do not depend on map order |
| `HookScheduler.HookWeightsUnique` | internal/spec/task_after.go:26-36 | The weights of both phases are determined by the tasks |
| `HookGraph.WeightsAreLeast` | internal/spec/task_after.go:21-25 | No assignment that puts every dependency strictly below its dependent is smaller anywhere |
| `HookGraph.WeightsBelowCount` | internal/spec/task_after.go:71-103 | Every weight is below the number of tasks in the phase |
| `HookGraph.AfterOrderIsIrrelevant` | internal/spec/task_after.go:61-66 | Order and repetition of `after` entries do not change the weights |
| `HookGraph.CycleHasNoWeights` | internal/spec/task_after.go:104-113 | A phase with a cycle has no assignment that respects it |
| `HookGraph.WaitsForMeaning` | internal/spec/task_after.go:43-68 | The edges of the graph are the `after` entries between two hooks of the phase |
| `Environments.MatchEnvKeyMeaning` | internal/spec/env_identity.go:73-83 | A key is found exactly when some key names the environment or, without a slash, is its first path segment |
| `Environments.AfterCoversExactly` | internal/spec/task_validate.go:183-196 | The check on filter entries holds exactly when the dependency runs in every environment, of all possible names, where its dependent does |
| `Environments.ActiveInMeaning` | internal/spec/task.go:300-306 | An empty filter means every environment; otherwise one of its entries names it or its parent |
| `TaskValidation.OwnSettingsWin` | internal/spec/task.go:173-214 | A task's own environments, profiles and sizing come before its parent's |
| `TaskValidation.ValidateTaskAfterGraph` | internal/spec/task_validate.go:147-179 | The errors collected are exactly the faults of the spec: unknown dependencies, other phases, uncovered environments, cycles |
| `TaskValidation.EffectiveTasks` | internal/spec/task.go:279-298 | Fails exactly on a cycle, never in an accepted spec, naming the first such phase and its stuck tasks; otherwise the merged tasks of the environment with their longest-chain weights |
| `TaskValidation.EffectiveClosedUnderAfter` | internal/spec/task_validate.go:147-179 | In an accepted spec the hook tasks of any environment are closed under `after`, in the same phase and with strictly growing weight |
| `TaskValidation.HelmRunsDependenciesFirst` | internal/spec/task.go:279-298 | In every environment of an accepted spec, Helm's order of weight and then name runs each dependency before its dependent |
| `ClusterLifecycle.InvKept` | internal/localkube/manager.go:112-170 | Every step of every interleaving keeps the invariant on calls, channel, wait functions and WaitGroup |
| `ClusterLifecycle.DeleteNeverRacesCreate` | internal/localkube/manager.go:142-160 | From the moment a cleanup may start its delete, that call's Kind create is not running |
| `ClusterLifecycle.SendNeverBlocks` | internal/localkube/kind.go:214-217 | Kind's goroutine always has room in the channel |
| `ClusterLifecycle.WaitCalledOnce` | internal/localkube/manager.go:130-168 | The wait function is called at most once, and exactly once by the time a call is complete |
| `ClusterLifecycle.OneFinalEvent` | internal/localkube/manager.go:130-170 | A call emits one final event, which agrees with its result |
| `ClusterOutcomes.OutcomeIsKindsAnswer` | internal/localkube/manager.go:130-170 | In every run a call succeeds only when Kind created the cluster, or found it and that will do; is cancelled only when it was; and fails only with a rejected configuration or with what Kind answered, never on a cluster created or found that will do |
| `ClusterOutcomes.UncancelledOutcome` | internal/localkube/manager.go:130-170 | The one outcome of a call that is not cancelled, from its configuration and Kind's answer |
| `ClusterOutcomes.ReceivedAnswerDecides` | internal/localkube/kind.go:219-227 | A call that received Kind's answer returns that, and success whatever is cancelled meanwhile |
| `ClusterOutcomes.DecisionStands` | internal/localkube/manager.go:136-165 | The outcome is the one settled when the call decides: success before a cancellation, a cancellation before other errors |
| `ClusterLifecycle.CloseWaitsForCleanup` | internal/localkube/manager.go:95-101 | `Close` returns only after the cleanup of every call that had returned before it was called |
| `ClusterLifecycle.NeverStuck` | internal/localkube/manager.go:112-170 | A call that is not complete always has a step it can take |
| `ClusterLifecycle.CloseNotStuck` | internal/localkube/manager.go:95-101 | Once every call is complete a blocked `Close` can return |
| `ClusterLifecycle.CallsAreFinite` | internal/localkube/manager.go:112-170 | In every run a call takes at most twelve steps of its own |
| `ClusterCancellation.OnlyCleanupRemoves` | internal/localkube/manager.go:142-160 | Between any two states of a run, a cluster that disappears was deleted on request or removed meanwhile by the cleanup of a cancelled call that does not retain |
| `ClusterCancellation.CreateKeepsExistingCluster` | internal/localkube/manager.go:142-160 | A lone `Create` on an existing cluster keeps it in every run exactly when it was told to retain on failure |
| `ClusterCancellation.LoneCallKeepsCluster` | internal/localkube/manager.go:142-160 | What a lone complete call leaves: the cluster is gone exactly when it was cancelled without retaining and its delete succeeded |
| `ClusterCancellation.CancelledCreateRemovesExistingCluster` | internal/localkube/manager.go:142-160 | For every configuration that does not retain, a run in which Kind refuses to create an existing cluster and the cluster is removed |
| `ClusterCancellation.CancelledReturn` | internal/localkube/manager.go:142-160 | In the step in which a cancelled call returns, it has waited for Kind, which has stopped, if it retains, and has not waited if it does not |
| `ClusterCancellation.ReturnsAtOnceUnlessRetaining` | internal/localkube/manager.go:108-160 | A cancelled call can return without having waited exactly when it does not retain, after the wait exactly when it does, and with Kind still running exactly when it does not retain and its configuration was accepted |
| `ClusterCancellation.SafeExactly` | internal/localkube/manager.go:142-160 | In any state of a run, the calls under way cannot remove a cluster, however they go on without new calls and cancellations, exactly when none of its name is cancelled, does not retain and may still come to its delete |
| `ClusterCancellation.CreatedClusterIsLostToOthers` | internal/localkube/manager.go:112-170 | The cluster of a call that succeeded is missing only if it was deleted on request or by the cleanup of another call after Kind had answered |
| `ClusterCancellation.CleanupCanHitAnotherCreate` | internal/localkube/manager.go:150-158 | A run in which one call's cleanup deletes while Kind creates for another of the same name, which succeeds and loses its cluster |
| `VolumeResize.PatchAll` | internal/cmd/deploy/resize.go:156-191 | The patch phase moves requests only upwards, never past the goal, reaches it when it succeeds, deletes nothing, and fails only at once upon a reason to: a refused call, no claims, no class known to allow expansion, or a size that cannot be read |
| `VolumeResize.WaitForExpansion` | internal/cmd/deploy/resize.go:373-405 | Returns success only on a claim just seen with a known capacity of at least its request, or waiting for a file system resize; gives up only upon a refused call or when the claim was polled past the time limit and never seen so; and always returns |
| `VolumeResize.OrphanDelete` | internal/cmd/deploy/resize.go:206-244 | Deletes the StatefulSets of the components in order, exactly one each, stopping at the first refused call or component without exactly one |
| `VolumeResize.ResizeVolumes` | internal/cmd/deploy/resize.go:138-201 | However the cluster changes and whichever calls fail: no request falls, every raise and delete was justified when made, StatefulSets stay until every claim was seen grown, success or a late failure means the goal is reached, and each failure has its logged reason |
| `VolumeResize.DeletesFollowGrowth` | internal/cmd/deploy/resize.go:195-201 | Before any StatefulSet is deleted each covered claim was seen at its goal with at least that capacity or a resize pending |
| `VolumeResize.ClaimsOfMeaning` | internal/cmd/deploy/resize.go:246-274 | A resize is about the chart's own claim, for a Deployment that has it, and else about the claims with its component's label |
| `VolumeResize.SetsLeft` | internal/cmd/deploy/resize.go:206-244 | The StatefulSets left after the delete phase are those of no component with a stateful resize |
| `VolumeResize.GoalIsMaximum` | internal/cmd/deploy/resize.go:352-371 | A claim's goal is the larger of its request and the largest size asked for it |
| `VolumeResize.RetryReachesSameRequests` | internal/cmd/deploy/resize.go:138-201 | From wherever a resize stopped, running it again has the same goal |
| `VolumeResize.ResizeAndRetry` | internal/cmd/deploy/resize.go:138-201 | A retry that gets past the patch phase ends with the requests of one uninterrupted run, and after a failure before the delete phase with its StatefulSets |
| `WorkloadGuards.CheckWorkloadGuards` | internal/cmd/deploy/guards.go:53-143 | The errors are exactly the violations of active components that existed before |
| `WorkloadGuards.ViolationFields` | internal/cmd/deploy/guards.go:68-136 | What each violation is on the recorded and the new kind, role and size |
| `WorkloadGuards.ComparedMeaning` | internal/cmd/deploy/guards.go:58-66 | The rules apply to components active in the environment that the previous release recorded |
| `WorkloadGuards.DetectPersistenceResizes` | internal/cmd/deploy/resize.go:54-95 | Exactly the active components whose recorded size text changed, sorted, one each |
| `WorkloadGuards.NeedsResizeMeaning` | internal/cmd/deploy/resize.go:54-95 | A resize needs a recorded size, another text now, both readable, and no decrease |
| `WorkloadGuards.AdmittedResizesAreTheChanges` | internal/cmd/deploy/resize.go:99-115 | Once the rules accept, a resize is listed for exactly the components whose size text changed, each not smaller than before; without the flag there is none |
| `FieldTreeNodes.Node.InsertField` | internal/plan/yamltree.go:70-94 | On mutable nodes: keeps the node valid (order lists the children's keys once each) and inserts the field into the tree it stands for |
| `FieldTreeWriter.BuildTree` | internal/plan/yamltree.go:46-52 | The nodes built from a change's fields stand for the tree of those fields |
| `FieldTreeWriter.FieldSegmentsMeaning` | internal/plan/yamltree.go:54-68 | A field stands at its own segments; without any, at map keys that joined by dots are its path; and nowhere if its path is empty |
| `FieldTreeWriter.WriteTree` | internal/plan/yamltree.go:111-156 | The writer shows only fields of the change, and all of them, once each, exactly when no path is a prefix of another; each field's line is read back, from the lines alone, as the field's own path, and every line says what the entries say there |
| `FieldReadBack.LinesReadBack` | internal/plan/yamltree.go:111-156 | Read back by indents, each line has a path of the change: a leaf or dump the last field there, a header where some path goes on, an item the list key of its entry; lines come in order of first insertion at every level, one for each path |
| `FieldReadBack.ShownLineIsEntry` | internal/plan/yamltree.go:111-156 | A line that shows a field is read as the path of an entry with that field |
| `FieldTree.BuildIsGrouped` | internal/plan/yamltree.go:70-94 | Insertion one by one gives the tree grouped by first key, children in order of first insertion |
| `FieldTree.KeyMeaning` | internal/plan/yamltree.go:79-83 | A segment is stored under its name, or, without name and list key, under its index in decimal |
| `FieldRender.PathHoldsLastField` | internal/plan/yamltree.go:70-94 | A path of the tree holds the last field inserted there, and no other path holds one |
| `FieldRender.WriterShowsAll` | internal/plan/yamltree.go:111-156 | Every field is shown exactly once if and only if no path is a prefix of another, the empty path aside |
| `MapDetail.ExpandMapDetail` | internal/plan/diff.go:195-214 | The loop over the pairs returns one field per leaf, in order |
| `MapDetail.FieldsAreLeaves` | internal/plan/diff.go:195-214 | Each field is for one leaf of the node: its path and segments are the keys that lead there, and its value is the leaf's, as the new value if added and as the old one if removed |
| `MapDetail.ExpandThenBuild` | internal/plan/diff.go:195-214 | Splitting a node into fields and building the tree of those gives back its nesting and key order exactly when its keys are stored distinctly at every level |
| `MapDetail.ViewShowsEveryLeaf` | internal/plan/diff.go:190-214 | The nested view of such a node shows each leaf once, in order, and no leaf's path is a prefix of another's |
| `MapDetail.UniqueKeysAreWellKeyed` | internal/plan/yamltree.go:79-83 | Unique non-empty keys are stored distinctly |
| `MapDetail.EmptyKeyClashes` | internal/plan/yamltree.go:79-83 | A node on which the round trip fails and the view does not show every field |
| `Normalize.YamlNode.DeleteMapKey` | internal/plan/normalize.go:93-101 | In place: removes the first pair with the key and nothing else, and says whether there was one |
| `Normalize.YamlNode.NormalizeResource` | internal/plan/normalize.go:49-77 | In place: status, noise metadata and noise annotations are deleted, and the annotations when nothing is left in them |
| `NoiseFields.StripIsClean` | internal/plan/normalize.go:49-77 | The deletions add up to a filter over the pairs of the root, metadata and annotations |
| `NoiseFields.WhatIsLeft` | internal/plan/normalize.go:23-77 | Key by key: only the status, five metadata fields and three annotations go, and the annotations with the last of them |
| `NoiseFields.NoiseIsInvisible` | internal/plan/normalize.go:15-44 | Any amount of bookkeeping added to a resource or taken from it leaves nothing to see after normalizing |
| `PlanDiff.IndexResources` | internal/plan/resource.go:157-163 | The index holds the last document of each key |
| `PlanDiff.ComputeDiff` | internal/plan/diff.go:37-99 | Normalizes the documents in place and plans for what is left of them; fails exactly when some matched pair cannot be compared |
| `PlanMeaning.PlanContents` | internal/plan/diff.go:59-96 | With unique keys, a plan holds exactly the keys only in current (add), only in previous (destroy) and in both with differing fields (change), once each and in order |
| `PlanDiff.OrderMeaning` | internal/plan/diff.go:88-96 | Changes in order are sorted by kind, then namespace, then name |
| `PlanMeaning.CountsMeaning` | internal/plan/diff.go:64-86 | The summary counts are the sizes of those three sets |
| `PlanMeaning.CountsBalance` | internal/plan/diff.go:64-86 | Additions less destructions is the difference in size of the two manifests |
| `PlanMeaning.PlansSwap` | internal/plan/diff.go:37-99 | Swapping the manifests swaps the counts of additions and destructions and keeps the changed keys |
| `PlanMeaning.AddedIsDestroyedBack` | internal/plan/diff.go:37-99 | A resource is added by a plan exactly when the plan back destroys it |
| `PlanMeaning.NoiseChangesNoPlan` | internal/plan/diff.go:47-52 | Bookkeeping on either side, any amount of it, changes no plan |
| `Drift.ComputeDrift` | internal/drift/drift.go:48-96 | Nothing on a fresh install, otherwise one entry for each resource that drifts and one label for each that could not be checked, each in the order of the rendered resources |
| `Drift.DriftInOrder` | internal/drift/drift.go:56-94 | The entries are, one each and in order, for the increasing positions of the resources that drift |
| `Drift.IncompleteInOrder` | internal/drift/drift.go:68-86 | The labels are, one each and in order, those of the resources that could not be checked |
| `Drift.DriftMeaning` | internal/drift/drift.go:56-94 | Drift is reported for exactly the resources that are no planned addition and differ from the prediction in fields that the last change with their label does not touch, with exactly those fields in order |
| `Drift.DriftIsComplete` | internal/drift/drift.go:82-92 | A difference the plan does not touch is reported |
| `Drift.IncompleteMeaning` | internal/drift/drift.go:68-86 | Exactly the resources that could not be predicted or compared are reported as unchecked |
| `Drift.ExplainedLeavesNoDrift` | internal/drift/drift.go:112-149 | A plan that touches every difference of a resource, in its one change with that label, leaves no drift there |
| `Drift.DriftIsRightExactly` | internal/drift/drift.go:56-149 | What becomes of a resource is what looking up the plan by key would give, whatever is found and however objects compare, exactly when the plan adds it or its label says the same as its key |
| `Drift.VersionsConfuse` | internal/drift/drift.go:112-158 | Two API versions changed in one plan: drift that is planned is reported, and drift that is not is hidden |
| `Drift.NoOtherVersionSuffices` | internal/drift/drift.go:151-158 | In a computed plan the label suffices for every resource that the plan has no other API version of |
| `Drift.PlanLabels` | internal/drift/drift.go:151-158 | A computed plan has distinct labels exactly when no two of its changes are for keys that differ in the API version only |
| `Profiles.ResolveProfileNames` | internal/spec/profile.go:38-80 | Omitted, empty and given lists of profiles, with and without a platform default |
| `Profiles.DefaultComesFirst` | internal/spec/profile.go:38-80 | Names without a profiles section are an error, and so is opting out of a defined default; otherwise a defined default comes first and once and then the other names asked for, with their order and repeats |
| `Profiles.AskedIsSelectable` | internal/spec/profile.go:58-77 | A list that is not empty gives profiles that can all be looked up exactly when the section exists and has every name in it but, possibly, the default |
| `Profiles.MergeProfiles` | internal/spec/profile.go:97-142 | Fails exactly on an undefined name; otherwise the left-to-right merge of the profiles |
| `Profiles.MergeIsHomomorphic` | internal/spec/profile.go:97-142 | Merging a list is merging the merges of its two parts, up to ceilings that set nothing |
| `Profiles.MergeIsExactlyHomomorphic` | internal/spec/profile.go:481-499 | It is equal as a value exactly when the second part's ceiling blocks are none, an odd number, set something, or agree with what the first part leaves unset |
| `Profiles.SetCeilingsMergeExactly` | internal/spec/profile.go:481-499 | In particular when every ceiling block sets cpu or memory |
| `Profiles.UnsetCeilingsDiffer` | internal/spec/profile.go:481-499 | An input on which that exception is real |
| `Profiles.AllowedDomainsMeaning` | internal/spec/profile.go:127-134 | No constraint exactly when no profile has a list, otherwise the first list without what some profile does not permit |
| `Profiles.TolerationsMeaning` | internal/spec/profile.go:443-454 | Every toleration of every profile, once |
| `Profiles.TolerationsInOrder` | internal/spec/profile.go:443-454 | Each where it first occurs in the lists of the profiles, one after the other |
| `Profiles.LastKeyWins` | internal/spec/profile.go:375-441 | In labels, annotations, selectors and security contexts the last profile that sets a key decides its value |
| `Profiles.LastTextWins` | internal/spec/profile.go:121-126 | The last profile that names a storage class, retention or scrape setting decides it, and without one it is empty |
| `Profiles.ListsConcatenate` | internal/spec/profile.go:180-185 | Each profile's relabel list stands in the merged one, after those of the profiles before |
| `Profiles.LastHonorWins` | internal/spec/profile.go:176-179 | The last profile that says whether to honor labels decides it |
| `Profiles.MergedIsObeyed` | internal/spec/profile.go:272-356 | A domain and requests obey the merged policy exactly when they obey every profile merged |
| `Profiles.FewerProfilesAskLess` | internal/spec/profile.go:272-356 | Passing the domain and ceiling checks with some profiles is passing them with any of these |
| `Profiles.ValidateIsPerProfile` | internal/spec/profile.go:272-326 | The whole check passes exactly when every profile is obeyed, the last storage class named exists and enabled metrics have monitor labels |
| `Profiles.PassingKeepsEveryLimit` | internal/spec/profile.go:272-356 | When the check passes, each profile's list has the domain, no request set is above its ceiling on the same resource, and with metrics enabled some profile has monitor labels |
| `Profiles.RefusalHasAReason` | internal/spec/profile.go:272-356 | What each refusal means on the fields of some or every profile |
| `Profiles.RequestsInEffect` | internal/spec/profile.go:358-372 | The requests checked are the task's or component's own if any is set, else those of the preset named, by default the small one |
| `Profiles.PresetsMeaning` | internal/spec/constants.go:309-395 | What each preset asks for, and that no larger one asks for less |
| `Platforms.ValidatePlatformConsistency` | internal/spec/platform_loader.go:139-190 | Accepts exactly the consistent platforms, and what it reports is a fault of the platform |
| `Platforms.ConsistentMeaning` | internal/spec/platform_loader.go:139-210 | Consistent is: base domains named, a certificate source for every TLS mode, one default domain at most in each environment, and profiles that refer to domains and classes some environment has |
| `Platforms.DefaultIsDetermined` | internal/spec/resolve.go:464-479 | The default domain is independent of the map walk exactly when there is one domain or one default at most |
| `Resolution.ResolveComponent` | internal/spec/resolve.go:151-381 | A component resolved has its policy obeyed, a valid hostname in a known domain and a known storage class; otherwise the first thing that is wrong is reported |
| `Resolution.FaultFields` | internal/spec/resolve.go:151-381 | What each rejection means on the component, the platform and the environment |
| `Resolution.ActiveComponentNames` | internal/helm/generate.go:301-324 | The sorted names of exactly the components that resolution covers |
| `Resolution.ResolveTasks` | internal/spec/resolve.go:671-725 | The tasks of the environment with their weights and policies, or the first reason why not |
| `Resolution.Resolve` | internal/spec/resolve.go:38-142 | Either every active component and task resolved, hostnames distinct, or the first rejection in order of names |
| `Resolution.RejectionIsFinal` | internal/spec/resolve.go:38-142 | A rejected request has no resolution |
| `Resolution.CollisionIsFinal` | internal/spec/resolve.go:122-132 | Two active components that each resolve, to one hostname, leave no resolution |
| `Resolution.ResolveIsDetermined` | internal/spec/resolve.go:78-142 | On a consistent platform two outcomes are the same, results and rejections, whatever order maps are walked in |
| `Resolution.EveryProfileIsEnforced` | internal/spec/resolve.go:179-206 | Each profile a resolved component selects has the domain on its list, if there is one, and no ceiling below the request for that resource |
| `Resolution.EveryProfileIsEnforcedOnTasks` | internal/spec/resolve.go:671-725 | No profile a resolved task selects has a ceiling below the task's own or inherited request for that resource, and a defined default is first |
| `Resolution.EnvironmentUsed` | internal/spec/resolve.go:54-84 | The platform environment is the one of that name, else the one named before the first slash; one is missing exactly when there is neither |
| `Resolution.ResolvedFields` | internal/spec/resolve.go:207-381 | Hostname, domain and TLS settings of a resolved component from its expose block and the domain |
| `Resolution.ResolvedStorageClass` | internal/spec/resolve.go:406-461 | The storage class is the component's own choice, else its policy's, looked up in the environment |
| `Resolution.DefaultIsUnavoidable` | internal/spec/profile.go:38-80 | On a platform with a default profile no resolved component goes without it |
| `Resolution.ResolvedTasksRunInOrder` | internal/spec/task.go:279-285 | Helm runs the resolved tasks of an accepted spec with every dependency first |
| `ChartCaches.ChartCache.Get` | internal/helm/cache.go:127-145 | Returns the last path stored for the key exactly when it is within its lifetime and not known to be missing |
| `ChartCaches.ChartCache.Set` | internal/helm/cache.go:147-155 | Records the path as the key's last, and keeps directories in one role each |
| `ChartCaches.ChartCache.EntriesApart` | internal/helm/cache.go:147-155 | No two entries share a directory |
| `ChartCaches.ChartCache.CleanupExpired` | internal/helm/cache.go:164-179 | Removes exactly the expired entries and, but for the removals it reports as failed, exactly their directories; a directory no entry points to is never removed |
| `ChartCaches.ChartCache.ReplaceThenCleanUp` | internal/helm/cache.go:147-179 | After a key is stored twice and the cache cleaned up, the first directory is on disk with no entry for it |
| `ChartCaches.ChartCache.LeftBehind` | internal/helm/cache.go:164-179 | Such a directory stays, however long the cache is used and cleaned up |
| `ChartCaches.ChartCache.Generate` | internal/helm/generate.go:143-243 | Gives a copy of a chart prepared and stored, or none upon a fault of its own; a failed preparation leaves its directory on disk with no entry for it |
| `ChartCaches.ChartCache.PrepareChart` | internal/helm/generate.go:107-243 | Whatever other callers and cleanups do meanwhile, the directory returned is new, on disk, the caller's own and not the cache's, and holds the chart for the key; there is none only upon a fault of its own disk calls or when the directory to copy was removed meanwhile |
| `BoundedNumbers.NewTaskJobSpec` | internal/spec/task_job.go:47-111 | Succeeds exactly when every number fits, narrows none, and clamps parallelism into 1 to the smaller of completions and the limit |
| `BoundedNumbers.JobFitsMeaning` | internal/spec/task_job.go:47-111 | Fitting is being within the limits of the fields, counts below one read as one |
| `BoundedNumbers.ValidateNumbers` | internal/spec/task_validate.go:98-139 | The errors are exactly the numbers out of range |
| `BoundedNumbers.AcceptedTaskFits` | internal/spec/task_validate.go:98-139 | A task has no such error exactly when it becomes a Job as it stands, parallelism not clamped |
| `BoundedNumbers.ThresholdCoversSeconds` | internal/helm/generate.go:920-926 | The threshold is within 1 and the 32-bit limit and, below that limit, the least number of intervals that covers the seconds |
| `BoundedNumbers.InEffectMeaning` | internal/helm/generate.go:901-916 | A duration that cannot be read or is below a second reads as the default, any other as its whole seconds |
| `BoundedNumbers.WindowCoversRequest` | internal/helm/generate.go:901-930 | The probe's window is at least as long as requested exactly when the request does not pass the threshold's limit and has whole seconds or these are no multiple of the interval; with an interval beyond its field, only when the wrapped interval alone covers it |
| `BoundedNumbers.ShortWindow` | internal/helm/generate.go:901-930 | A request with a fraction that the window falls short of |
| `BoundedNumbers.ClampedWindow` | internal/helm/generate.go:901-930 | A request in whole seconds that the window falls short of |

## Left out

- Helm, Kubernetes, Kind and container engine calls beyond the state named above; YAML and JSON parsing, JSON Schema, environment substitution, files, TLS certificates, colours and text formatting, the init wizard and status tables.
- YAML aliases, which `normalizeResource` follows when it looks up a value; documents are trees that share nothing.
- `diffResource`: a parameter, so what its report contains is not modelled; `PlansSwap` requires that whether two documents differ does not depend on which comes first.
- NoiseFields.StripIsClean: for mappings whose keys occur once, as the decoder that reads a resource's identity demands of what it decodes; of repeated keys only the first is deleted.
- PlanMeaning.PlanContents: for unique keys on each side, which the source states as its assumption (internal/plan/resource.go:154-156); for repeated keys `PlanDiff.ComputeDiff` still says what is planned document by document.
- ClusterLifecycle.InvKept: an invalid cluster name, which returns before anything starts, is no step; `Delete` is one step that removes the cluster, `Recreate` is that step and a call, and the events of `Delete` and of Kind itself are not modelled.
- VolumeResize.ResizeVolumes: no one else writes claim requests, or creates or deletes claims or StatefulSets, meanwhile; a missing client is not modelled.
- VolumeResize.ResizeAndRetry: says nothing about StatefulSets when the first attempt had begun to delete them, since a retry then fails on the ones already gone.
- FieldTreeNodes.Node.InsertField: fields are values, not pointers into the change.
- Drift.ComputeDrift: what the predictor finds is an input; the text of its errors is left out of the unchecked list.
- Resolution.Resolve: warnings and the provenance report; DNS name rules are parameters.
- Profiles.MergeProfiles: a nil map and an empty one are the same; a security context is the set of its explicit fields.
- TaskValidation.EffectiveTasks: of what a task inherits, environments, profiles, preset and resources are modelled, not image, files and variables.
- BoundedNumbers.ValidateNumbers: the checks of `validateTask` on names, images, commands and filters are not modelled; `BoundedNumbers` works on whole numbers, so the rounding of the floating point division is not.
- ChartCaches.ChartCache.PrepareChart: keys are given, so two specs that serialise alike share one; copying a directory is one step; whatever keeps a chart from being prepared, the spec's own errors included, is one fault.
- `HooksChanged` compares two lists of hooks by name and content; `mapCompactPath` renames paths by a table of patterns; masking blanks the values of secrets; `emitWorkloadWarnings` and `CrossCheckPlatformReferences` collect warnings and unknown names. None of them is modelled.
