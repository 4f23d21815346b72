# BitBake in Dafny

A model of the algorithms at the heart of BitBake, the build engine under `poky/bitbake/lib/bb`,
with proofs of what they promise. `dafny verify dfyconfig.toml` checks everything.

Objects that update their fields are classes with the same fields and loops (`TaskData`,
`SignatureGenerator`, `CowNode`, `DataSmart`, `LayerTable`, `Search`, `Cache`, `Notifier`); each
method is tied to a specification over values, and the promises are proved of that specification.
Protocols between processes are step relations, and their promises hold in every state of every run.
Wherever the source walks a Python set, or a dictionary whose order it does not rely on, the model
takes the members in an order left open, so that no result depends on it.

- **Provider resolution and failure** (`FailureCascade`, `ProviderResolution`, `ResolutionLimits`,
  `TaskDataModel`).
  The mutually recursive removal of recipes and targets ends on every graph, cycles included, and
  fails exactly the least set of recipes closed under "a target lost its last provider". Resolving
  all dependencies ends, and leaves a closed world in which every target has all the recipes it
  should have, and nothing was taken in, made known or failed without need.
- **Signatures** (`VarDeps`, `SignatureGeneration`, `ChecksumDiff`). Dependency lists are exactly
  what is reachable, in one order; recomputation from a dump hashes the same text exactly when the
  taint was kept. The texts that are hashed tell every value, hash, file and taint that goes into them.
- **Layered stores** (`CowDict`, `OverrideResolution`, `VariableView`, `Renaming`, `DataSmart`).
  Copies share dictionaries and lists until they write; no sequence of writes is seen by an ancestor
  or a sibling. The override search ends, with a winner exactly if an active override can be used up.
  What sets, appends, prepends, overrides, deletions and renamings do to unexpanded reads is proved
  as laws.
- **Parallel parsing and cache hand-off** (`ParseProtocol`, `ExtrasHandoff`). Step relations with
  crashes: every job is delivered exactly once; no entry of a call that returned is lost, and nothing
  is merged that nobody offered. From every state of every run all can still be brought to an end.
- **Cache files and names** (`RecipeCache`, `FileNames`), **choice of providers** (`Providers`),
  **layer priorities** (`LayerPriority`), **tasks between two tasks** (`TasksBetween`), **file
  system events** (`RawEvents`, `Notifier`). `Collections` and `Strings` hold the list, set and string operations.

Promises that the code does not keep, each with the exact condition under which it does, or with the
inputs for which it does not:

- A target is given up as soon as the recipes listed for it so far have failed, though others are
  still to be tried: a first recipe that fails at once takes along whoever needs the target, and the
  second is listed too late (`LostTooSoon`, `LostAtOnce`).
- The smallest given layer priority is not always found: a 0 makes the search start over
  (`MinPrioIsMinimum`, `ZeroResets`).
- A taint file that holds `nostamp:` other than at its start, or a forced-run taint whose file has
  since been removed, makes the recomputed hash differ (`TaintAgreement`, `TaintLost`).
- A list stored under a key that an immutable value or a deletion hides is not read back (`SetList`,
  `ListAfterDeletion`).
- An active override does not always supply the value: cutting one component out of a name of several
  can cut into another (`LostOverride`). One does exactly if cutting off last components leads to an
  active override (`WinnerExists`); for two components it always does (`TwoComponents`).
- Deleting a name whose override holds a capital, or no letter in its last component, leaves it on the
  list, and it goes on hiding other overrides (`DeletedIsUnlisted`, `DeletedStillWins`, `StillListed`).
- Renaming a variable does not always end: with a value, to a name that is then listed as overriding
  it, it repeats itself at every recursion limit (`ListedNeverEnds`, `RenamingRunsOn` for `A` and
  `A:o`). It ends for every new name that does not begin with the old one, and for one that goes on
  from it with something other than a colon, as `PACKAGES_NONML` from `PACKAGES`, if the overriding
  names have a colon there (`RenamingEnds`); for a variable that nothing overrides, exactly if it has
  no value or the new name does not override it (`EndsUnlessSelfOverriding`).
- Override lists do not stay free of duplicates: every operation but renaming keeps them so
  (`AllDoneDistinct`), and so does renaming a variable to an unused name (`RenamedMoves`), but not
  where overriding names have overriding names of their own (`RenamingRepeats`).
- Extras files that a pass has merged are not always on the disk afterwards: a torn file can end the
  pass before anything is written (`InMemoryOnly`). All that is merged is on the disk exactly if no
  key was merged since the last pass that was completed (`OnDiskExactly`); only what a dead writer
  left can cut a pass short (`AbortNeedsDeath`).
- Coalescing does not keep every event that differs in a field: an empty name and one of two quotes
  look alike, and the second such event is dropped (`QuotesLost`). It keeps exactly the events that
  are to be kept if and only if no new event looks like another in this way (`CoalescedExactly`).
- With no parser thread at all, a run with recipes to parse never ends well (`NoThreads`).
- Writing a recipe name and reading it back is exact only for names that cannot be taken for
  prefixes (`ReadsBack`, `VariantAgrees`, `ColonIsCut`); a saved cache comes back only if every array
  is non-empty and follows the order of the classes (`SaveAndReload`, `TurnedRound`).

## Model

| member | source | states |
|---|---|---|
| FailureCascade.TidFnInverts | poky/bitbake/lib/bb/taskdata.py:476-480 | Taking the part before the last colon of "recipe:task" gives back the recipe, however many colons it holds itself. |
| FailureCascade.DependeesAre | poky/bitbake/lib/bb/taskdata.py:280-298 | Who needs a target: the recipes whose own list names it, and those of whose tasks one names it, for build-time and run-time targets by their own tables. |
| FailureCascade.ClosedMeans | poky/bitbake/lib/bb/taskdata.py:438-505 | Closed, told by the two provider tables: a target with providers, all of them within, has all its dependees within. |
| FailureCascade.CascadeClosed | poky/bitbake/lib/bb/taskdata.py:438-505 | The cascade contains its start and is closed: all dependees of a target whose listed providers are all in it are in it, build-time and run-time. |
| FailureCascade.CascadeLeast | poky/bitbake/lib/bb/taskdata.py:438-505 | It is inside every closed set that contains the start. |
| FailureCascade.CascadeUnique | poky/bitbake/lib/bb/taskdata.py:438-505 | The two properties determine it, so no order of dictionaries matters. |
| FailureCascade.ClosedAfterThinning | poky/bitbake/lib/bb/taskdata.py:446-457 | A closed set stays closed while its own recipes leave the provider lists in the middle of an iteration. |
| FailureCascade.SettledClosed | poky/bitbake/lib/bb/taskdata.py:438-505 | If no failed recipe was listed, what a finished run of the worklist has failed is closed over the lists it began with, and none of it is listed. |
| FailureCascade.SettledIsCascade | poky/bitbake/lib/bb/taskdata.py:438-505 | Finished and bounded, it is exactly the least failing set. |
| TaskDataModel.TaskData.GetDependees | poky/bitbake/lib/bb/taskdata.py:280-288 | Exactly the recipes whose dependencies list the build target. |
| TaskDataModel.TaskData.GetRdependees | poky/bitbake/lib/bb/taskdata.py:290-298 | The same for run-time targets. |
| TaskDataModel.TaskData.FailFn | poky/bitbake/lib/bb/taskdata.py:438-460 | Ends on any graph; duplicates stay out; the failed recipes are within, and without a fatal target and with no failed recipe listed before exactly, the cascade of the old ones plus fn; failed recipes left the lists and exactly the emptied targets became failed. With halt only an external target can be fatal, and on a normal end none has newly failed. |
| TaskDataModel.TaskData.ForgetAll | poky/bitbake/lib/bb/taskdata.py:446-460 | One loop of the removal: fn has left every list of one kind, and every emptied target has been settled, though lists shrink under the loop. |
| TaskDataModel.TaskData.Forget | poky/bitbake/lib/bb/taskdata.py:446-460 | One turn of it, nested cascade included. |
| TaskDataModel.TaskData.RemoveBuildTarget | poky/bitbake/lib/bb/taskdata.py:462-484 | The target is failed and every recipe that needs it, as a whole or in one of its tasks, has failed with all that follows; bounded by the cascade of those recipes. With halt a normal end means that no external target newly failed. |
| TaskDataModel.TaskData.RemoveRunTarget | poky/bitbake/lib/bb/taskdata.py:486-505 | The same for run-time targets. |
| TaskDataModel.TaskData.FailTask | poky/bitbake/lib/bb/taskdata.py:474-480 | The recipe of a task that names the lost target fails, within the bound. |
| ProviderResolution.WithEntriesAt | poky/bitbake/lib/bb/taskdata.py:105-126 | Each task's entry holds that task's own intertask dependencies, and exactly those of its parents that are tasks of the recipe. |
| ProviderResolution.EntriesElsewhere | poky/bitbake/lib/bb/taskdata.py:105-126 | No entry but those of the tasks changes. |
| ProviderResolution.NamesAre | poky/bitbake/lib/bb/taskdata.py:138-150 | What a recipe depends on: its build-time list; at run time whatever any of its packages depends on or recommends; and the names its tasks mention. |
| ProviderResolution.TaskNamesItsRecipe | poky/bitbake/lib/bb/taskdata.py:105-127 | A recipe one of whose tasks names a target is among those the target's loss drags down. |
| TaskDataModel.TaskData.AddTarget | poky/bitbake/lib/bb/taskdata.py:206-235 | The recipe is appended to one target's list unless it is on it; nothing else changes. |
| TaskDataModel.TaskData.AddTaskEntries | poky/bitbake/lib/bb/taskdata.py:105-126 | The entries of exactly the recipe's tasks are written, parents restricted to its own tasks; targets the tasks name become known, without providers. |
| TaskDataModel.TaskData.Collect | poky/bitbake/lib/bb/taskdata.py:138-150 | The names of all per-package lists. |
| TaskDataModel.TaskData.TouchDeps | poky/bitbake/lib/bb/taskdata.py:157-166 | Dependencies become known; reports exactly whether one has failed. |
| TaskDataModel.TaskData.AddTasks | poky/bitbake/lib/bb/taskdata.py:67-166 | The recipe is seen and recorded once; nothing done is undone; a tidy state stays tidy: an unfailed seen recipe depends on no unknown or failed target. |
| TaskDataModel.TaskData.AddProviderInternal | poky/bitbake/lib/bb/taskdata.py:337-383 | On a normal return a target that is not ignored and had no provider lists exactly the eligible recipes that have not failed by then, in their order (for filters that name none twice); each of them is seen; other lists only lost failed recipes. NoProvider is raised exactly if nobody provides the name, or it has no provider and no unfailed recipe is eligible, and then changes nothing. With halt no external target newly failed on a normal return. |
| TaskDataModel.TaskData.AddRprovider | poky/bitbake/lib/bb/taskdata.py:388-436 | The same for run-time targets, and exactly when each of the two extra errors is raised, both without effect. |
| TaskDataModel.TaskData.AddProvider | poky/bitbake/lib/bb/taskdata.py:327-335 | The request is recorded as external; without halt it never fails: a target without hope becomes a failed one, any other without providers gets all its unfailed eligible recipes. |
| TaskDataModel.TaskData.AddAll | poky/bitbake/lib/bb/taskdata.py:378-383 | The loop over the recipes, while each may fail others: those that are still unfailed end up listed in order, all seen; the target has a provider or is failed; nothing beyond need happens. |
| TaskDataModel.TaskData.LostTooSoon | poky/bitbake/lib/bb/taskdata.py:378-383 | Of two eligible recipes the first depends on something lost: the target has failed in the end, though the second, if it has not failed, is listed for it. |
| ResolutionLimits.LostAtOnce | poky/bitbake/lib/bb/taskdata.py:378-383 | A recipe listed first for a target, and bound to fail, takes the target with it. |
| ResolutionLimits.TakingIn | poky/bitbake/lib/bb/taskdata.py:67-166 | Taking in a recipe makes nothing known but what it mentions. |
| ResolutionLimits.FailingAtOnce | poky/bitbake/lib/bb/taskdata.py:157-166 | A recipe that depends on a lost target fails, with nothing beyond what that entails. |
| ResolutionLimits.GivingUp | poky/bitbake/lib/bb/taskdata.py:462-505 | Giving up a target for which no recipe is left stays within all limits that are closed under what is needed and what may fail. |
| ResolutionLimits.CascadeWithinLimits | poky/bitbake/lib/bb/taskdata.py:438-505 | A cascade that begins within such limits stays within them: it fails no recipe unless something that recipe mentions has no recipe, or one that may fail. |
| ResolutionLimits.NothingFails | poky/bitbake/lib/bb/taskdata.py:507-531 | If there are recipes for everything that may be mentioned, and no choice among them is refused, nothing fails at all. |
| TaskDataModel.TaskData.Unresolved | poky/bitbake/lib/bb/taskdata.py:244-272 | Exactly the known targets that are neither ignored, failed nor provided, once each. |
| TaskDataModel.TaskData.ResolveBuildTargets | poky/bitbake/lib/bb/taskdata.py:514-522 | One pass: each target it began with is handled in the end, and a pass that adds nothing makes nothing known. |
| TaskDataModel.TaskData.ResolveRunTargets | poky/bitbake/lib/bb/taskdata.py:523-528 | The same for run-time targets. |
| TaskDataModel.TaskData.ResolveRound | poky/bitbake/lib/bb/taskdata.py:513-531 | A round that adds anything leaves fewer open names; one that adds nothing leaves none unhandled. |
| TaskDataModel.TaskData.AddUnresolved | poky/bitbake/lib/bb/taskdata.py:507-531 | Ends, and without halt leaves every target handled and a closed world: every dependency of every seen and unfailed recipe is ignored or has providers, all of them seen and unfailed (or, allowing incompleteness, no recipe is left that could provide it). |
| TaskDataModel.BuildTaskData | poky/bitbake/lib/bb/cooker.py:700-760 | From empty bookkeeping, requesting any targets and resolving ends; every request is ignored, met or failed, exactly the requests are external, and without halt the world is closed, every target that has providers has all its unfailed candidates in order, and everything seen, known, failed or lost is within every limit that the requests and the dependencies force. |
| ProviderResolution.OpenDrops | poky/bitbake/lib/bb/taskdata.py:512-531 | The termination measure: the number of names neither failed nor provided drops when one is dealt with. |
| ProviderResolution.TidyAfterCascade | poky/bitbake/lib/bb/taskdata.py:438-505 | A finished cascade keeps listed providers unfailed and unfailed recipes free of failed targets. |
| ProviderResolution.ListedAfterCascade | poky/bitbake/lib/bb/taskdata.py:446-457 | One half of it: after a finished cascade listed providers are seen and unfailed. |
| ProviderResolution.NeededAfterCascade | poky/bitbake/lib/bb/taskdata.py:438-505 | The other: no unfailed recipe is left with a failed target among what it needs. |
| ProviderResolution.NothingAdded | poky/bitbake/lib/bb/taskdata.py:512-531 | Nothing is left open after a round without additions, although cascades ran during it. |
| ProviderResolution.ResolvedIsClosed | poky/bitbake/lib/bb/taskdata.py:507-531 | Tidy bookkeeping with every target handled is a closed world. |
| VarDeps.Explore | poky/bitbake/lib/bb/data.py:384-400 | The worklist of one task ends on cyclic variables and adds exactly what is reachable from the task in one or more steps. |
| VarDeps.GenerateDependencies | poky/bitbake/lib/bb/data.py:378-402 | All tasks: the tables hold each task and all it reaches, every entry justified, with the variable's own references and value. |
| VarDeps.Collect | poky/bitbake/lib/bb/data.py:418-426 | The second worklist finds exactly the reachable variables and never looks up a key the first did not fill, while removing ignored variables from the shared table. |
| VarDeps.GenerateDependencyHash | poky/bitbake/lib/bb/data.py:404-441 | Each task's list is the ascending listing of exactly the reachable variables, and its base hash is that of one fixed text; the table is pruned for exactly those. |
| VarDeps.ReachedIsNotIgnored | poky/bitbake/lib/bb/data.py:391-398 | No ignored variable is ever reached. |
| VarDeps.ReachesExactly | poky/bitbake/lib/bb/data.py:384-400 | What is reached: whatever the variable, or something reached from it, refers to, unless it is ignored. |
| VarDeps.OwnValueTells | poky/bitbake/lib/bb/data.py:408-415 | The text begins with the task's own value: with the same dependencies and their values, two texts are equal if and only if the own values are. |
| VarDeps.OneValueTells | poky/bitbake/lib/bb/data.py:431-438 | Each dependency adds its name and value: with all else equal, two texts are equal if and only if its values are. |
| VarDeps.OrderDoesNotMatter | poky/bitbake/lib/bb/data.py:404-441 | Two runs over any task lists give a task the same list and hash: pruning in place leaks nothing between tasks. |
| SignatureGeneration.FileTextSurvives | poky/bitbake/lib/bb/siggen.py:334-342 | A dumped path contributes the same text as the original one, for paths with a "/./" marker and for base names. |
| SignatureGeneration.FilesTextSurvives | poky/bitbake/lib/bb/siggen.py:394-400 | The same for whole lists of checksums. |
| SignatureGeneration.TaintAgreement | poky/bitbake/lib/bb/siggen.py:1073-1077 | Dumped and own taint give the same text if and only if the taint was kept. |
| SignatureGeneration.TaintLost | poky/bitbake/lib/bb/siggen.py:1073-1077 | A taint file for which they differ. |
| SignatureGeneration.RecomputationAgrees | poky/bitbake/lib/bb/siggen.py:1061-1079 | With unchanged dependency hashes and taint file, the recomputation hashes the same text as the original if and only if the taint was kept. |
| SignatureGeneration.AllKnown | poky/bitbake/lib/bb/siggen.py:201-224 | The tables generated for a recipe hold all that dumping any of its tasks looks up. |
| SignatureGeneration.SignatureGenerator.BuildData | poky/bitbake/lib/bb/siggen.py:201-224 | Every task's base hash is that of its value and its reachable variables' names and values, and all that dumping it looks up is there; the tables of other recipes and base hashes under other identifiers stay. |
| SignatureGeneration.StillBuilt | poky/bitbake/lib/bb/siggen.py:201-224 | What was generated for one recipe still holds after another, as long as no task name has a colon, so that identifiers tell recipes apart. |
| SignatureGeneration.SignatureGenerator.BuildAll | poky/bitbake/lib/bb/siggen.py:201-224 | After any number of recipes, the tables and base hashes of each are right. |
| SignatureGeneration.SignatureGenerator.BuiltIsKnown | poky/bitbake/lib/bb/siggen.py:201-224 | What that means for each task: every key the dump reads is there, the list is exactly what is reachable, the base hash is that of the one text. |
| SignatureGeneration.SignatureGenerator.PrepTaskhash | poky/bitbake/lib/bb/siggen.py:277-326 | Records dependencies, checksums and taint; a taint file overrides a nostamp taint, and other tasks' taints stay. |
| SignatureGeneration.SignatureGenerator.GetTaskhash | poky/bitbake/lib/bb/siggen.py:328-349 | The hash of base hash, dependency hashes, file texts and taint text, in this order. |
| SignatureGeneration.TaskTextTells | poky/bitbake/lib/bb/siggen.py:328-345 | For hashes and file texts of equal lengths, two task texts are equal if and only if base hashes, the hash of every dependency, every file and the taint are. |
| SignatureGeneration.DepHashesAt | poky/bitbake/lib/bb/siggen.py:330-332 | Each dependency contributes its own hash, at its place in the list. |
| SignatureGeneration.DepHashesTell | poky/bitbake/lib/bb/siggen.py:330-332 | Hashes of equal length: the texts of all dependencies are equal if and only if each hash is. |
| SignatureGeneration.FilesTell | poky/bitbake/lib/bb/siggen.py:334-338 | The same for files. |
| SignatureGeneration.FileCounts | poky/bitbake/lib/bb/siggen.py:334-338 | A file counts by its checksum, and not at all without one; another checksum of that length gives another text. |
| SignatureGeneration.MarkedFileCounts | poky/bitbake/lib/bb/siggen.py:334-338 | Of a path with the marker, what follows it counts too. |
| SignatureGeneration.TaintCounts | poky/bitbake/lib/bb/siggen.py:340-344 | Of a taint counts what is behind its nostamp marker; without the marker, all of it. |
| SignatureGeneration.PreparedTaintAdds | poky/bitbake/lib/bb/siggen.py:310-324 | A taint file supplies the taint; else a nostamp task gets a new uuid, which a later preparation keeps; else nothing changes. |
| SignatureGeneration.SignatureGenerator.DumpSigtask | poky/bitbake/lib/bb/siggen.py:363-422 | The dumped variables, dependencies, run-time data and taint, and that a mismatch is reported exactly when the recomputed hashes differ. |
| SignatureGeneration.SignatureGenerator.PrepareHashAndDump | poky/bitbake/lib/bb/siggen.py:277-422 | Prepared, hashed and dumped with nothing changing in between, a task never reports a base hash mismatch, nor a hash mismatch when the taint was kept. |
| SignatureGeneration.SignatureGenerator.CalcBasehash | poky/bitbake/lib/bb/siggen.py:1045-1059 | Hashes the same text over the dumped values as was hashed at first. |
| SignatureGeneration.SignatureGenerator.CalcTaskhash | poky/bitbake/lib/bb/siggen.py:1061-1079 | Hashes base hash, recorded dependency hashes, dumped file texts and taint. |
| ChecksumDiff.Count | poky/bitbake/lib/bb/siggen.py:870-871 | The counter holds the difference of multiplicities for every pair, negative ones included. |
| ChecksumDiff.CommonTimes | poky/bitbake/lib/bb/siggen.py:864-895 | What is left unreported is the multiset intersection. |
| ChecksumDiff.Match | poky/bitbake/lib/bb/siggen.py:872-890 | Every surplus pair of either list is accounted for once, as changed, added or removed. |
| ChecksumDiff.Splits | poky/bitbake/lib/bb/siggen.py:864-895 | A list is, as a multiset, its common part plus what was reported of it. |
| ChecksumDiff.CommonSymmetric | poky/bitbake/lib/bb/siggen.py:864-895 | It does not matter which list comes first. |
| ChecksumDiff.FileChecksumsDiff | poky/bitbake/lib/bb/siggen.py:864-895 | As multisets of names, a is common + changed + removed and b is the same common part + changed + added; no name is both added and removed; changes are real. |
| CowDict.CowNode.Copy | poky/bitbake/lib/bb/COW.py:44-51 | An empty child that shows what its parent shows. |
| CowDict.CowNode.SetAtom | poky/bitbake/lib/bb/COW.py:53-58 | Reads back, or reads as missing after a deletion (lines 106-107); other keys and all nodes outside the subtree show what they did. |
| CowDict.CowNode.SetList | poky/bitbake/lib/bb/COW.py:53-58 | Reads back exactly when no immutable entry or deletion of the key is visible; otherwise nothing seems to have happened. |
| CowDict.CowNode.ListAfterDeletion | poky/bitbake/lib/bb/COW.py:53-58 | A list stored over a deleted key, which still reads as missing. |
| CowDict.CowNode.GetItem | poky/bitbake/lib/bb/COW.py:60-104 | The value shown, at every node unchanged; a list that is not asked for read-only is the node's own from then on. |
| CowDict.CowNode.OwnCopy | poky/bitbake/lib/bb/COW.py:60-80 | The copy on first access changes no read anywhere, whatever hangs below the node. |
| CowDict.CowNode.AppendOwn | poky/bitbake/lib/bb/COW.py:60-80 | Changing an owned list in place is seen by nobody outside the subtree. |
| CowDict.FoundIsOwned | poky/bitbake/lib/bb/COW.py:60-80 | A list found on a chain is held by a node of that chain under the same key: there is no other alias. |
| CowDict.FindInCopy | poky/bitbake/lib/bb/COW.py:60-80 | After a node took its copy, each search finds the copy in place of the original, or what it found before. |
| CowDict.Perform | poky/bitbake/lib/bb/COW.py:44-107 | Any sequence of sets, gets with append, deletions and copies on one node leaves every read outside its subtree unchanged. |
| CowDict.VariableHistory.Copy | poky/bitbake/lib/bb/data_smart.py:231-239 | The copied history shows the same records and shares nothing that will be written. |
| CowDict.VariableHistory.Record | poky/bitbake/lib/bb/data_smart.py:254-276 | Appends one record, or none when an equal one is there and duplicates are unwanted; unseen by other histories; KeyError exactly after a deletion. |
| CowDict.RecordedOnce | poky/bitbake/lib/bb/data_smart.py:254-276 | What was recorded stays in front; the record comes last, and without duplicates wanted a list free of them stays so. |
| OverrideResolution.RemovedShrinks | poky/bitbake/lib/bb/data_smart.py:799-803 | Cutting an override off a name that ends with it makes the name shorter. |
| OverrideResolution.Visit | poky/bitbake/lib/bb/data_smart.py:797-807 | One name against one override: the total length of active names never grows, and drops when a name was shortened. |
| OverrideResolution.FindMatch | poky/bitbake/lib/bb/data_smart.py:785-808 | The nested loops end on every table and list of overrides, and give the winner. |
| OverrideResolution.WinnerIsActive | poky/bitbake/lib/bb/data_smart.py:785-808 | The winner belongs to an override all of whose components are active. |
| OverrideResolution.RightmostWins | poky/bitbake/lib/bb/data_smart.py:785-808 | With overrides of one component, there is a winner if and only if one is active, and it is the last recorded name for the active override that comes last in OVERRIDES, by first mention. |
| OverrideResolution.RemovedParts | poky/bitbake/lib/bb/data_smart.py:799-803 | Cutting out a component leaves some of the others whole, if none begins with it. |
| OverrideResolution.WinnerExists | poky/bitbake/lib/bb/data_smart.py:785-808 | With any number of components and any order of OVERRIDES, there is a winner if and only if some active override can be used up: cutting off its last component, and whatever else looks like it, leads to an active override in the end. |
| OverrideResolution.TwoComponents | poky/bitbake/lib/bb/data_smart.py:799-803 | An active override of two components can always be used up. |
| OverrideResolution.SomeActiveWins | poky/bitbake/lib/bb/data_smart.py:785-808 | There is a winner whenever an override is active, if no component of an active override begins with another of its components. |
| OverrideResolution.LostOverride | poky/bitbake/lib/bb/data_smart.py:799-803 | An active override that supplies nothing. |
| OverrideResolution.WinnerNamed | poky/bitbake/lib/bb/data_smart.py:785-808 | Which entry wins depends on the overrides alone: with other names in their place, the name in the same place wins. |
| VariableView.ParseSuffixed | poky/bitbake/lib/bb/data_smart.py:563-567 | A name with an operator, and perhaps overrides without capitals, is taken apart into exactly these, unless the name itself holds an operator. |
| VariableView.ParseExactly | poky/bitbake/lib/bb/data_smart.py:563-567 | How any name is taken apart: with the shortest base for which an operator follows, and then nothing, or a colon and text without capitals; if there is none, not at all. |
| VariableView.NextCandidate | poky/bitbake/lib/bb/data_smart.py:648-654 | Going left from an accepted place, the next colon is the next candidate, unless it begins the name. |
| VariableView.NestedRegistered | poky/bitbake/lib/bb/data_smart.py:638-654 | Names are overridden only by longer ones, which begin with them. |
| VariableView.ReadingFrame | poky/bitbake/lib/bb/data_smart.py:769-848 | A read depends only on names of its own length or longer: reading an overriding name ends. |
| VariableView.SetReadsBack | poky/bitbake/lib/bb/data_smart.py:590-622 | A plain set outside parsing reads back exactly, whatever was deferred or overridden before and whichever overrides are active later. |
| VariableView.DeferredReads | poky/bitbake/lib/bb/data_smart.py:563-588 | An append adds to the end of what is read, a prepend to its beginning, while all its overrides are active; a removal leaves the unexpanded value; all this also for an overridden variable. |
| VariableView.DeferredOnlyWhileActive | poky/bitbake/lib/bb/data_smart.py:823-848 | Told by the active overrides alone: the text is added, at the end or the beginning, if every component of the named overrides is active or none is named; otherwise, and after a removal, the reading is what it was. |
| VariableView.AppendForTwo | poky/bitbake/lib/bb/data_smart.py:823-834 | An append for `a:b` is read exactly while both are active, one for `a` while a is. |
| VariableView.WeakDefaultReads | poky/bitbake/lib/bb/data_smart.py:816-820 | A name with only a weak default reads as that, unless weak defaults are left out; a value given afterwards wins either way. |
| VariableView.ValueOverWeakDefault | poky/bitbake/lib/bb/data_smart.py:816-820 | Where there is a value, a weak default changes no reading. |
| VariableView.FlagShows | poky/bitbake/lib/bb/data_smart.py:738-756 | A flag that is set shows; other flags, operations and variables stay. |
| VariableView.FlagGone | poky/bitbake/lib/bb/data_smart.py:896-911 | A flag that is deleted is gone, and with an operator its operations; all else stays. |
| VariableView.ClearedForgets | poky/bitbake/lib/bb/data_smart.py:593-611 | A set outside parsing drops exactly the names whose overrides are active and the operations deferred on the variable; all other names keep what they have. |
| VariableView.OldSyntaxMeans | poky/bitbake/lib/bb/data_smart.py:541 | The old operators are found anywhere in a name, unless it begins like that of an anonymous function. |
| VariableView.ListedByFirstLetter | poky/bitbake/lib/bb/data_smart.py:638-654 | `v:o` is listed under v if and only if o begins with a small letter or a digit. |
| VariableView.UnlistedByCase | poky/bitbake/lib/bb/data_smart.py:720-736 | Deleting it unlists it if and only if o has a small letter and no capital. |
| VariableView.ParsedValueReads | poky/bitbake/lib/bb/data_smart.py:590-622 | While parsing, a value goes under what was deferred before, and an active override still wins. |
| VariableView.OverrideTakesEffect | poky/bitbake/lib/bb/data_smart.py:638-654 | `v:o = value` gives v that value wherever o is the last active override of v, with what was deferred on both names applied. |
| VariableView.WeakOverrideReads | poky/bitbake/lib/bb/data_smart.py:757-758 | A weak default of `v:o` is the value of v wherever o is its last active override, even when weak defaults of v are left out. |
| VariableView.AppendedOverrideReads | poky/bitbake/lib/bb/data_smart.py:569-588 | A text appended to `v:o` is read in v there, behind what `v:o` reads without it. |
| VariableView.DeletedReads | poky/bitbake/lib/bb/data_smart.py:711-736 | A deleted variable reads as unset. |
| VariableView.DeletedIsUnlisted | poky/bitbake/lib/bb/data_smart.py:720-736 | Deleting `v:o`, o of any number of components, takes it off v's list if and only if o has no capitals and its last component has a letter. |
| VariableView.DeletedStillWins | poky/bitbake/lib/bb/data_smart.py:720-736 | Otherwise the deletion does not change which name overrides v under any active overrides; where that is the deleted one, it supplies no value. |
| VariableView.StillListed | poky/bitbake/lib/bb/data_smart.py:720-736 | A deleted name that stays on the list. |
| VariableView.LowerPieces | poky/bitbake/lib/bb/data_smart.py:724-736 | The condition on the whole override is that on all the pieces the loop looks at. |
| VariableView.DecoratedPush | poky/bitbake/lib/bb/data_smart.py:823-848 | The value is prepended texts, latest first, then the base, then appended texts in order: one more operation extends it on its side. |
| VariableView.Decorate | poky/bitbake/lib/bb/data_smart.py:823-848 | The two loops compute that value; no applicable operation and no base give none. |
| Renaming.RenamingEnds | poky/bitbake/lib/bb/data_smart.py:659-699 | A renaming to a name that does not begin with the old one, or goes on from it with something other than a colon while what overrides the old one has a colon there, ends, in success or at an operator of the old syntax, within a depth that the longest overriding name bounds, and never with a KeyError. |
| Renaming.ListedNeverEnds | poky/bitbake/lib/bb/data_smart.py:685-690 | A renaming to a name that overrides the old one, by the time the loop is reached, ends well at no recursion limit. |
| Renaming.EndsUnlessSelfOverriding | poky/bitbake/lib/bb/data_smart.py:659-699 | A renaming of a variable that nothing overrides ends well if and only if it has no value or the new name is not listed as overriding it. |
| Renaming.RenamingRunsOn | poky/bitbake/lib/bb/data_smart.py:659-699 | `A` with a value, renamed to `A:o`, reaches every recursion limit. |
| Renaming.RenamedNested | poky/bitbake/lib/bb/data_smart.py:685-690 | However it ends, names are still overridden only by longer ones that begin with them. |
| Renaming.RenamedMoves | poky/bitbake/lib/bb/data_smart.py:659-699 | A variable is renamed to an unused name, neither of the two being the other with a colon and more behind it, and its overriding names, of any number of components, are not overridden themselves: value, deferred operations and the whole list move, the old name shows nothing, and lists stay free of duplicates. |
| Renaming.RenamedReads | poky/bitbake/lib/bb/data_smart.py:659-699 | Then the new name reads as the old one did, whichever overrides are active, and the old one as unset. |
| Renaming.RenamingRepeats | poky/bitbake/lib/bb/data_smart.py:685-690 | A variable with two levels of overriding names, after whose renaming one of them is listed twice. |
| DataSmart.DataSmart.CreateCopy | poky/bitbake/lib/bb/data_smart.py:976-996 | The copy shows what the original shows, sharing all dictionaries and lists. |
| DataSmart.DataSmart.FindVar | poky/bitbake/lib/bb/data_smart.py:513-522 | Walking the chain, empty dictionaries as tombstones included, equals look-up in one flattened map. |
| DataSmart.DataSmart.MakeShadowCopy | poky/bitbake/lib/bb/data_smart.py:524-533 | The store gets a dictionary of its own with what was visible; nothing changes for stores that do not read through to it. |
| DataSmart.DataSmart.Write | poky/bitbake/lib/bb/data_smart.py:738-755 | A store into an own dictionary, in place, changes one variable of the flattened map and nothing for other stores. |
| DataSmart.DataSmart.ListOverride | poky/bitbake/lib/bb/data_smart.py:642-647 | The list is made anew before it is added to, so that stores sharing it see nothing. |
| DataSmart.DataSmart.UpdateOverrides | poky/bitbake/lib/bb/data_smart.py:638-654 | Exactly the names that v overrides list it: those at colons from which every piece down to the last begins like an override. |
| DataSmart.DataSmart.ForgetOverrides | poky/bitbake/lib/bb/data_smart.py:720-736 | Exactly the names at colons from which every piece is in lower case stop listing it. |
| DataSmart.DataSmart.SetVarFlag | poky/bitbake/lib/bb/data_smart.py:738-755 | For any flag that holds text, the flattened map changes in that flag, and a default value registers the name as an override. |
| DataSmart.DataSmart.SetOps | poky/bitbake/lib/bb/data_smart.py:738-755 | For an operator, the list of deferred operations is replaced. |
| DataSmart.DataSmart.DelVarFlag | poky/bitbake/lib/bb/data_smart.py:896-911 | One flag goes, in this store only, and with an operator the operations it defers; an unset or deleted variable stays as it is. |
| DataSmart.DataSmart.DelVar | poky/bitbake/lib/bb/data_smart.py:711-736 | The flattened map shows an empty dictionary, and the override table forgets the name. |
| DataSmart.DataSmart.Clear | poky/bitbake/lib/bb/data_smart.py:593-611 | Deferred operations, names with active overrides and the override list go; the list is still there when it is deleted. |
| DataSmart.DataSmart.SetVar | poky/bitbake/lib/bb/data_smart.py:538-622 | Does to the flattened map what the specification says, in this store only; fatal exactly for the old operator syntax. |
| DataSmart.DataSmart.AppendVar | poky/bitbake/lib/bb/data_smart.py:701-704 | Setting the name with the append operator. |
| DataSmart.DataSmart.PrependVar | poky/bitbake/lib/bb/data_smart.py:706-709 | Setting the name with the prepend operator. |
| DataSmart.DataSmart.CarryOps | poky/bitbake/lib/bb/data_smart.py:676-683 | Lists taken from any store of the chain are put behind the new name's own, kind by kind in any order. |
| DataSmart.DataSmart.RenameNext | poky/bitbake/lib/bb/data_smart.py:686-690 | One turn of the loop: the list of the new name grows in place, which no other store can see, and the nested renaming leaves that list alone or makes a new one. |
| DataSmart.DataSmart.RenameOverriders | poky/bitbake/lib/bb/data_smart.py:685-690 | The loop over the old name's list, while renamings change the table; a list that has gone is a KeyError. |
| DataSmart.DataSmart.RenameVar | poky/bitbake/lib/bb/data_smart.py:659-699 | At any recursion limit, and however it ends, does to the flattened map what the specification says, in this store only. |
| DataSmart.DataSmart.GetVar | poky/bitbake/lib/bb/data_smart.py:769-848 | Ends, and gives the unexpanded reading of the flattened map, through any chain of overriding names; of that reading the laws of VariableView speak. |
| DataSmart.Perform | poky/bitbake/lib/bb/data_smart.py:508-996 | After any sequence of operations, renamings and failures among them, and copies, a store shows what they make of one plain map, and every store that does not read through to it shows what it did. |
| DataSmart.AllDoneDistinct | poky/bitbake/lib/bb/data_smart.py:538-756 | Sets, flags, deletions and copies list no name twice. |
| ParseProtocol.ChunkifyPartitions | poky/bitbake/lib/bb/cooker.py:2200-2202 | Striding hands every job to exactly one worker, multiplicities included. |
| ParseProtocol.RunInv | poky/bitbake/lib/bb/cooker.py:2093-2386 | The invariant (conservation, one postponed result at most, counters, watched processes) holds in every state of every run. |
| ParseProtocol.NothingLost | poky/bitbake/lib/bb/cooker.py:2093-2116 | Whatever the interleaving of workers, full queues, timeouts and kills, each job is in exactly one place. |
| ParseProtocol.Progress | poky/bitbake/lib/bb/cooker.py:2093-2386 | In every state short of the end some party can make a step that leaves less to do: a worker takes up, parses, puts or writes something or exits, or, with all gone, the consumer goes on. |
| ParseProtocol.WorkerProgress | poky/bitbake/lib/bb/cooker.py:2093-2119 | A living worker can always do so; a postponed result is taken up again. |
| ParseProtocol.CanFinish | poky/bitbake/lib/bb/cooker.py:2093-2386 | Every run with a parse thread can be continued to its end, and to a good one as long as no worker was killed and no recipe failed to parse. |
| ParseProtocol.QuitsPromptly | poky/bitbake/lib/bb/cooker.py:2095-2119 | A worker told to quit writes what it has put and exits without parsing anything more. |
| ParseProtocol.CanShutDown | poky/bitbake/lib/bb/cooker.py:2229-2268 | After the end, good or bad, all workers can be made to exit without parsing anything more, and the queue is empty then. |
| ParseProtocol.PutOff | poky/bitbake/lib/bb/cooker.py:2113-2116 | A run in which a result is put off, because the queue is full, and delivered in the end. |
| ParseProtocol.ExactlyOnce | poky/bitbake/lib/bb/cooker.py:2293-2386 | A run that ends without error has delivered every job exactly once, all parsed, with parsed == toparse and current == parsed + cached == total. |
| ParseProtocol.NoSpuriousFailure | poky/bitbake/lib/bb/cooker.py:2293-2386 | It ends in error only if a worker was killed or a recipe failed to parse. |
| ParseProtocol.DrainedIsComplete | poky/bitbake/lib/bb/cooker.py:2293-2314 | No process left and an empty queue mean that everything was delivered, unless a worker was killed. |
| ParseProtocol.NoThreads | poky/bitbake/lib/bb/cooker.py:2184-2210 | With no thread and something to parse, no run ends well. |
| ExtrasHandoff.MergeData | poky/bitbake/lib/bb/cache.py:912-916 | Per dictionary, new keys are added and old entries win. |
| ExtrasHandoff.StepKeeps | poky/bitbake/lib/bb/cache.py:888-947 | No step overwrites a finished file or changes a merged entry. |
| ExtrasHandoff.RunInv | poky/bitbake/lib/bb/cache.py:888-947 | Locks, files and the merger's pass stay consistent in every run, crashes and passes cut short included. |
| ExtrasHandoff.MergedForGood | poky/bitbake/lib/bb/cache.py:912-947 | A merged entry keeps its value for the rest of the run. |
| ExtrasHandoff.NothingInvented | poky/bitbake/lib/bb/cache.py:912-947 | Every merged value was offered for its key by the data, a file or a call of the beginning. |
| ExtrasHandoff.NothingLost | poky/bitbake/lib/bb/cache.py:888-947 | The file of a call that returned is intact, or all its keys are merged, with its values wherever nobody else offered another. |
| ExtrasHandoff.PassIsComplete | poky/bitbake/lib/bb/cache.py:918-947 | When all files have been read, none is left, and the entries of every call that had returned have arrived in that sense. |
| ExtrasHandoff.PassProgress | poky/bitbake/lib/bb/cache.py:926-947 | A pass that is not cut short ends: each of its steps leaves less to do. |
| ExtrasHandoff.CallProgress | poky/bitbake/lib/bb/cache.py:888-910 | Between passes every call that has begun can go on, and its search for an index ends. |
| ExtrasHandoff.FinishPass | poky/bitbake/lib/bb/cache.py:918-947 | A pass that is under way can be completed, with no file left and all that is merged on the disk. |
| ExtrasHandoff.CanSettle | poky/bitbake/lib/bb/cache.py:888-947 | Every run can be continued, without another death, until each living call has returned, no file is left, and the entries of all of them are on the disk. |
| ExtrasHandoff.AbortNeedsDeath | poky/bitbake/lib/bb/cache.py:928-934 | A pass is cut short only where a dead writer, or one of before, left a torn file. |
| ExtrasHandoff.DiskIsLastWrite | poky/bitbake/lib/bb/cache.py:942-947 | In every state of every run the disk holds the data as it was when the last pass was completed. |
| ExtrasHandoff.OnDiskExactly | poky/bitbake/lib/bb/cache.py:942-947 | All that is merged is on the disk if and only if no key was merged since then. |
| ExtrasHandoff.OnDisk | poky/bitbake/lib/bb/cache.py:942-947 | Between passes that is so unless one was cut short since then. |
| ExtrasHandoff.InMemoryOnly | poky/bitbake/lib/bb/cache.py:926-947 | A run in which an entry is left in memory only. |
| FileNames.ReadsBack | poky/bitbake/lib/bb/cache.py:240-267 | Reading a written name gives file, class and configuration back if and only if the configuration has no colon and the file cannot be taken for a prefix, or cut, as it is written. |
| FileNames.ColonIsCut | poky/bitbake/lib/bb/cache.py:240-257 | The names with a class for which it does not: what comes before the last colon of the file is read as part of the class. |
| FileNames.VariantAgrees | poky/bitbake/lib/bb/cache.py:259-280 | For a configuration without colons, the variant form names the same recipe if and only if the configuration is not empty and the class does not begin with a colon. |
| FileNames.ConfigIsCut | poky/bitbake/lib/bb/cache.py:245-248 | A file name that reads as configured never reads back as itself. |
| RecipeCache.Cache.Sync | poky/bitbake/lib/bb/cache.py:673-701 | One current file per class, holding for each recipe its infos of that class in order; other files stay, and the cache is gone. Without a directory, or with nothing new, nothing happens. |
| RecipeCache.Cache.LoadCachefile | poky/bitbake/lib/bb/cache.py:434-482 | The cache holds all that the streams say, class after class; a file of another version stops it with 0 reported and the earlier classes loaded. |
| RecipeCache.ComesBack | poky/bitbake/lib/bb/cache.py:434-482 | Taking an array apart by class and together again gives it back if and only if it follows the order of the classes. |
| RecipeCache.RegroupedInOrder | poky/bitbake/lib/bb/cache.py:434-482 | However it was ordered, it comes back in the order of the classes. |
| RecipeCache.SaveAndReload | poky/bitbake/lib/bb/cache.py:673-701 | Saving and loading gives the same cache if and only if every array is non-empty and follows the order of the classes. |
| RecipeCache.TurnedRound | poky/bitbake/lib/bb/cache.py:434-482 | An array that comes back in another order. |
| Notifier.ParseEncoded | poky/bitbake/lib/pyinotify.py:1220-1242 | Records written one after another are read one after another, fields, signs and lengths exact. |
| Notifier.ParsedIsEncoded | poky/bitbake/lib/pyinotify.py:1220-1242 | A buffer read to its end is the encoding of what was read. |
| Notifier.WholeRecords | poky/bitbake/lib/pyinotify.py:1220-1242 | Reading succeeds if and only if the buffer consists of whole records. |
| Notifier.FieldPlaces | poky/bitbake/lib/pyinotify.py:1224-1230 | Where the fields are: four little-endian numbers, the first of them signed, then the name; a record is there if and only if all its bytes are. |
| Notifier.EventOfRecord | poky/bitbake/lib/pyinotify.py:488-515 | The event has the numbers of its record, and of the name all but the zeros at its end. |
| RawEvents.TextTells | poky/bitbake/lib/pyinotify.py:461-485 | The text of an event tells all four fields, but for an empty name and one of two quotes: texts are equal if and only if events are equal in this sense. |
| Notifier.FirstOnlyFacts | poky/bitbake/lib/pyinotify.py:1233-1241 | What coalescing drops looks, in this sense, like an event of the batch that was there before or is kept; no two that are kept look alike; none is made up. |
| Notifier.UniqueFacts | poky/bitbake/lib/pyinotify.py:1150-1160 | What coalescing promises to leave: each event that is new by its fields, once. |
| Notifier.CoalescedExactly | poky/bitbake/lib/pyinotify.py:1150-1160 | It leaves that, in order, if and only if no new event looks like another one of the batch. |
| Notifier.QuotesLost | poky/bitbake/lib/pyinotify.py:461-485 | Two different events of which the second is dropped. |
| Notifier.Notifier.ReadEvents | poky/bitbake/lib/pyinotify.py:1201-1242 | The queue grows by exactly the events read, in order; when coalescing, by the first of each text not yet seen in the batch, and these are the events new by their fields if and only if no new one looks like another; an incomplete record raises an error after those before it were queued; below the threshold nothing happens. |
| Notifier.Notifier.ProcessEvents | poky/bitbake/lib/pyinotify.py:1244-1271 | As long as system processing adds no events and watches stay as they are: the queue is emptied in order, known and overflow events are handled, and the next batch accepts any event. |
| Notifier.DeliveredFacts | poky/bitbake/lib/pyinotify.py:1250-1267 | Each event is handled as often as it was queued if its watch is known or it tells of an overflow, unless all events are ignored; otherwise not at all. |
| Notifier.OverflowBit | poky/bitbake/lib/pyinotify.py:1255 | An overflow is told by the one bit 0x4000 of the mask, whatever the others are. |
| Notifier.DeliveredInOrder | poky/bitbake/lib/pyinotify.py:1250-1267 | What came first is handled first. |
| TasksBetween.RepeatsStep | poky/bitbake/lib/bb/build.py:1037-1064 | A walk that repeats from a successor repeats from the task. |
| TasksBetween.Search.FollowChain | poky/bitbake/lib/bb/build.py:1046-1061 | Ends on any graph; the chain is as it was at every normal return; every walk on from the task has been followed, and everything listed lies on one; circular only if some walk repeats. |
| TasksBetween.Between | poky/bitbake/lib/bb/build.py:1037-1064 | No duplicates; circular if and only if a walk from the start repeats a task; otherwise exactly the tasks on some walk to the end. |
| TasksBetween.AcyclicBetween | poky/bitbake/lib/bb/build.py:1037-1064 | In an acyclic graph it is never circular, and the walks are exactly the dependency paths. |
| LayerPriority.MinPrioIsMinimum | poky/bitbake/lib/bb/cooker.py:1212-1228 | The running minimum is the minimum if and only if that is not 0 or the last given priority is 0; it is always one of those given. |
| LayerPriority.ZeroResets | poky/bitbake/lib/bb/cooker.py:1224-1228 | An input for which it is not. |
| LayerPriority.BaseIsSmallest | poky/bitbake/lib/bb/cooker.py:1212-1228 | With no priority given as 0, what the first loop finds is 0 if none was given, and else the smallest given one, that of some layer. |
| LayerPriority.GivenAre | poky/bitbake/lib/bb/cooker.py:1213-1228 | The priorities that were given, zeros too, in the order of the layers. |
| LayerPriority.SmallestGiven | poky/bitbake/lib/bb/cooker.py:1212-1228 | The loop over the configured layers computes that minimum of those given. |
| LayerPriority.RankedExactly | poky/bitbake/lib/bb/cooker.py:1289-1301 | Layers can be ranked below those that look at them if and only if those looked at are enabled and none leads back to itself. |
| LayerPriority.AboveDependencies | poky/bitbake/lib/bb/cooker.py:1289-1304 | A computed priority is one more than the largest of the minimum and the dependencies' final ones, hence above each. |
| LayerPriority.FinalIsUnique | poky/bitbake/lib/bb/cooker.py:1289-1304 | The recursive specification does not depend on how the absence of cycles is witnessed. |
| LayerPriority.LayerTable.CalcLayerPriority | poky/bitbake/lib/bb/cooker.py:1289-1301 | The memoised recursion stores the final priority and leaves final ones alone. |
| LayerPriority.LayerTable.ConfigPriorities | poky/bitbake/lib/bb/cooker.py:1303-1321 | For any order of the collections, every layer gets its final priority. |
| LayerPriority.HandleCollections | poky/bitbake/lib/bb/cooker.py:1205-1321 | From the given priorities to the final ones: given ones are kept; any other is above the smallest given one as the first loop found it, and above all it depends on, by no more than it must. |
| Providers.SortPriorities | poky/bitbake/lib/bb/providers.py:63-88 | Groups in strictly descending layer priority, ascending preference within; file by file a permutation that keeps the order of equals. |
| Providers.AcceptedVersions | poky/bitbake/lib/bb/providers.py:105-116 | For a fitting epoch and revision, a setting that ends in % accepts exactly the versions that begin with the rest, all of them for a lone %, and fewer for a longer rest; any other setting accepts its own version only. |
| Providers.FindPreferredProvider | poky/bitbake/lib/bb/providers.py:118-197 | A match of the required version if one is set, else of the preferred one, with none in a higher layer or at a lower preference; none found means none exists, or that the setting that counts is empty. |
| Providers.SettingDecides | poky/bitbake/lib/bb/providers.py:127-143 | Which files fit, told by the two settings: a required one decides wherever it is set, even if empty; otherwise the preferred one does. |
| Providers.FindLatestProvider | poky/bitbake/lib/bb/providers.py:199-216 | The maximum by preference, then version. |
| Providers.TopGroup | poky/bitbake/lib/bb/providers.py:63-88 | The newest of the first group is the newest of the top layer among all files. |
| Providers.FindBestProvider | poky/bitbake/lib/bb/providers.py:218-235 | With a required version: a match of it, or none exactly if there is none, whatever is preferred; else a match of the preferred version if some file has it; else the maximum by preference and version in the top layer. |
| Providers.UpToCut | poky/bitbake/lib/bb/providers.py:262-267 | The packages settled before the early return are exactly those before the first unavailable one, by name, of which a file fits. |
| Providers.Collate | poky/bitbake/lib/bb/providers.py:251-257 | Exactly the files of each package name, in order. |
| Providers.AddPreferred | poky/bitbake/lib/bb/providers.py:261-269 | One pass over preferred versions, in order of names: stops exactly at the first package whose required version is unavailable, and up to there has a file for exactly the packages of which one fits. |
| Providers.AddLatest | poky/bitbake/lib/bb/providers.py:271-276 | Every remaining package name gets its newest recipe of the top layer. |
| Providers.FilterInternal | poky/bitbake/lib/bb/providers.py:237-293 | With every required version available, exactly one best recipe for each package name, the item's own package first; otherwise exactly the preferred recipes of the packages before the first unavailable one, by name. |
| Providers.FilterProviders | poky/bitbake/lib/bb/providers.py:295-321 | The same after reordering by preference: the preferred provider comes first exactly if it is eligible, otherwise, with all versions available, the item's own package. |

## Left out

- AddUnresolved: with halt nothing is claimed of the final state beyond consistent bookkeeping, because an exception that cuts a cascade short may have been swallowed on the way.
- BuildTaskData: one configuration only; wildcard targets and the list of what to run are not built.
- BuildTaskData: complete lists are claimed for filters that name no recipe twice, and limits for task names without colons, whose identifiers lead back to their recipes.
- FailFn: with halt and a fatal target only growth and the upper bound hold, because the exception leaves the lists half done.
- EndsUnlessSelfOverriding: for a variable that is overridden already and a new name that is the old one with a colon and more behind it, or where an overriding name has no colon behind the old one, `ListedNeverEnds` says when it does not end, but nothing says exactly when it does.
- RenamedReads: for overriding names that are not overridden themselves; otherwise lists can repeat themselves, and their order changes.
- RenamedMoves: a sufficient condition for lists without duplicates, not an exact one.
- ProcessEvents: system processing may add watches, and events for what a new directory holds already, while the queue is emptied.
- Lists of deferred operations are values: that a copied dictionary shares them with its parent, and that appending to them is safe only because each read hands out a copy, does not show.
- The coloured form of an event's text.
- Perform: text is no value for an operator's flag, and no variable is renamed to the empty name, after which names could override themselves.
- PrepareHashAndDump: one direction only for the hashes, since different texts may hash alike; `RecomputationAgrees` has both directions for the texts.
- HandleCollections: assumes that what layers without a given priority depend on is enabled, and leads back to none of them, where the source would fail with an error or recurse without end.
- Operations of the store not modelled: setVarFlags, delVarFlags, the text-appending flag operations, and iteration over keys. The recursion limit counts nested renamings only.
- Export and unexport flags (their set is shared with the parent), the tables of renamed variables that warn of old names, flag values other than text and deferred operations, and a variable named `_data`.
- Expansion (`${...}`, `${@...}`), removals at expansion, the expansion cache, and the computation of OVERRIDES and its stability: the list of active overrides is a parameter.
- Lower and upper case are those of ASCII; names do not contain newlines.
- Build and parse of recipes, regular expressions, the version comparison (any total preorder), the splitting of version settings, the digest (any function), and the references and values of variables (any functions) are parameters.
- Multiconfig dependencies, extra dependency functions, the hash equivalence client and filtering of run-time dependencies before hashing.
- The run-time provider filter: it removes elements from the list it walks over; its result is a parameter.
- Wrong or contradictory layer settings: the error handling of the collection loop, and regular expressions for layer patterns.
- The merger of extras does not die in the middle of a pass, and its cache file is written whole.
- File locks and the queue of the parser are modelled by what they guarantee; signals, profiling, sockets and logging are not modelled.
- Names of events are byte strings; a name that is not valid UTF-8 would raise another error. Watch handling and user callbacks run outside the model.
- The dump's record of ignore lists and of the unified hash of what was dumped.
- Checksum comparison takes a missing checksum as a text like any other.
