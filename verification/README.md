# Verified model of the Archivematica control plane and worker

A Dafny 4.11 model of the parts of this repository whose correctness is hardest to see from the code: the
controller that schedules packages and interprets workflows (Go), the worker that runs client scripts and pools
its processes (Python), and the client scripts that rename files, keep the database in step, and build or import
METS, CSV and PREMIS metadata (Python). Check everything with `dafny verify dfyconfig.toml`.

What is where:

- `Text`, `DirTree`: strings, numerals, directory trees and their walks.
- `ChangeNames`, `TreeCleanup`, `ObjectNames`: cleaning the names of a whole tree on disk and relocating its
  database records in batches, while the generator runs. The main result is that batches of any size equal one
  relocation with the whole old-to-new map, and that every record follows its entry; for a walk that raises midway,
  what has been written then, and exactly when the records still agree with the disk.
- `Mets`, `MetsFiles`, `MetsBuilder`, `FileReferences`, `FileSec`, `MetsDocument`, `SectionReferences`, `MetsContents`,
  `MetsReferences`: the recursive METS builder with its global counters; which files are filed in which group,
  identifiers are distinct, references resolve (ID and IDREF validity constraints, section 3.3.1 of XML 1.0), and which
  div or file refers to which section.
- `Controller`, `Scheduler`: the hand-kept package lists, and all interleavings of API calls, ticker and package
  goroutines as a state machine.
- `CommandLine`, `CommandSyntax`, `CommandWords`, `SharedPaths`, `SharedLocations`, `Replacements`, `ReplacementOrders`,
  `ReplacementMapping`: command templates filled by the controller, escaped for double quotes (section 2.2.3 of the
  POSIX.1-2017 Shell Command Language) and split by the worker.
- `MetadataRows`, `MetadataCsv`: metadata from JSON objects through CSV rows to ordered lists per file.
- `Workflow`, `WorkflowTurns`, `WorkflowRuns`, `WorkflowGraphs`: the workflow interpreter, where each kind of job goes
  on, its decisions, the statuses of whole runs, and when runs end or start over.
- `TaskBatches`, `TaskRuns`: tasks sent to the worker in batches over a reused buffer.
- `PremisImport`: importing PREMIS events as a decision about a graph.
- `WorkerPool`: allocating client scripts to processes.
- `NormativeStructMap`, `TransferTree`: the normative structMap and the entry tree of the transfer METS.

Code that updates objects in place is modelled by classes and loops, each proved against a function of the old
state; the theorems are about these functions and about runs of their steps, and laws that do not mention the
functions say what they compute.

Where the code does not do what one would expect, the model follows the code:

- Filling a template gives the intended text in every order of the map exactly if no text between two keys can
  come to spell a key, including text that is itself the value of a key in between
  (`ReplacementOrders.IntendedExactly`, `Replacements.InnerValueClashes`).
- When renaming raises midway, the batches already written stay written and the pending moves are lost: the job
  context swallows the exception inside the atomic block (`worker/worker/client/job.py:172-177`), so the block
  commits. The records then agree with the disk exactly if both last batches were just full and the directory in
  which the walk stopped has a clean path (`ObjectNames.RecordsAgreeExactly`); two files are enough to leave a record
  behind (`ObjectNames.RecordsLeftBehind`).
- A value reaches the worker with each backslash doubled (`CommandLine.RoundTripExactly`).
- The controller can block for good: with ten packages in flight and one more queued, `pick` waits for a slot
  while it holds the lock that every release of a slot needs (`Scheduler.PickReturnsExactly`,
  `Scheduler.DeadlockIsReachable`). The limit of two active packages holds exactly as long as
  every resumption finds fewer than two active (`Scheduler.TwoActiveExactly`); otherwise up to ten can be active
  (`Scheduler.ManyActiveIsReachable`).
- The ADMID of the objects div dangles exactly if there is object metadata that gives the section no child,
  because an element without children counts as false (`MetsDocument.DanglingExactly`).
- The Dublin Core section replaces the DMDIDs of the objects div, so the sections of the objects directory itself,
  if it has any, stay in the document without a reference (`SectionReferences.DescriptiveUsedAnew`).
- A local job without a next link restarts the workflow (`WorkflowRuns.RestartsWithoutLink`); a document never
  does so exactly if all its chains and links lead on (`WorkflowRuns.NeverRestartsExactly`), and some run does
  exactly if it can reach one that does not (`WorkflowGraphs.StartsTwiceExactly`).
- A batch that fails in the worker shows in the exit code only if it holds all the tasks with the largest code
  (`TaskRuns.ExitCodeExactly`, `TaskRuns.FailuresAreSilent`), and standard error never arrives, since worker and
  controller use different names for it (`TaskBatches.ArrivesExactly`).

## Model

| member | source | states |
|---|---|---|
| `ChangeNames.FixedPoints` | worker/worker/clientScripts/change_names.py:31-43 | change_name leaves a name alone exactly if the name is already clean |
| `ChangeNames.ChangeName` | worker/worker/clientScripts/change_names.py:31-43 | fails exactly for the empty name; otherwise the result is non-empty and holds allowed characters only |
| `ChangeNames.AllowedAre` | worker/worker/clientScripts/change_names.py:26-28 | the characters a name keeps: letters, digits, hyphen, underscore, dot and parentheses |
| `ChangeNames.AttemptsDistinct` | worker/worker/clientScripts/change_names.py:55-64 | candidate names with different numbers differ even when the title is truncated |
| `ChangeNames.AttemptFits` | worker/worker/clientScripts/change_names.py:55-64 | a candidate respects max_filename exactly if its extension, underscore and number leave room |
| `ChangeNames.AttemptKeeps` | worker/worker/clientScripts/change_names.py:55-64 | a candidate is as much of the title as fits, an underscore and the number unless it is the first candidate, then the extension |
| `ChangeNames.AttemptClean` | worker/worker/clientScripts/change_names.py:55-64 | candidates built from a clean name stay clean and are no special path |
| `ChangeNames.FirstFreeBound` | worker/worker/clientScripts/change_names.py:57-64 | the search for a free name ends after at most one more attempt than there are entries |
| `ChangeNames.NewNameIsFree` | worker/worker/clientScripts/change_names.py:46-71 | a successful rename gives a clean name that fits and was not taken; only unclean names change |
| `ChangeNames.NewNameSucceeds` | worker/worker/clientScripts/change_names.py:46-71 | renaming succeeds exactly if the first free number fits beside the extension |
| `ChangeNames.NewNameIsFirst` | worker/worker/clientScripts/change_names.py:46-71 | the new name is the candidate with the smallest number that is not taken |
| `ChangeNames.ChangePath` | worker/worker/clientScripts/change_names.py:46-71 | the counting loop ends at the first free candidate; the empty name is an error |
| `TreeCleanup.ChangeTreeGuarantees` | worker/worker/clientScripts/change_names.py:74-97 | whether the walk gets through or raises: the tuples yielded are an initial stretch of the walk, with distinct old and new paths, the new ones those of the tree as it then stands, shape and contents are kept, and was_changed exactly if some component was unclean; if it gets through, every entry is yielded, all names are fixed points, and a second run changes nothing |
| `TreeCleanup.CleanTreeUnchanged` | worker/worker/clientScripts/change_names.py:74-97 | a clean tree is left as it is, with no tuple marked as changed |
| `TreeCleanup.CleanUp` | worker/worker/clientScripts/change_names.py:74-97 | the invariant of the walk, also when it stops early: shape kept, what was yielded are stretches of both walks, names clean and distinct |
| `TreeCleanup.WalkInterrupted` | worker/worker/clientScripts/change_names.py:74-97 | after an exception the entries of the directory in which the walk stopped have moved with it, keeping their names, and no others |
| `TreeCleanup.NamesChosen` | worker/worker/clientScripts/change_names.py:74-97 | the name of each entry afterwards is the one chosen for it, given the names in its directory at that moment |
| `ObjectNames.TwoPassesAreOne` | worker/worker/clientScripts/change_object_names.py:114-166 | applying two indexes one after the other equals applying their union once, events included, if no written location is looked for again |
| `ObjectNames.OneEventPerMove` | worker/worker/clientScripts/change_object_names.py:129-164 | each live record whose location is in the index has exactly one event, with its location before and its location after; other records have none |
| `ObjectNames.KeyCleanness` | worker/worker/clientScripts/change_object_names.py:105-112 | a normalized path is clean below the start directory exactly if the path on disk is |
| `ObjectNames.KeyInjective` | worker/worker/clientScripts/change_object_names.py:105-112 | different paths below the start directory have different database locations |
| `ObjectNames.MovesAreSeparated` | worker/worker/clientScripts/change_object_names.py:201-257 | every indexed old location has an unclean component and every new one is clean: nothing is relocated twice |
| `ObjectNames.MovesAreDistinct` | worker/worker/clientScripts/change_object_names.py:201-257 | no old location is indexed twice |
| `ObjectNames.IndexHolds` | worker/worker/clientScripts/change_object_names.py:201-233 | the index maps each old location to its own new location |
| `ObjectNames.BatchAppliedOnce` | worker/worker/clientScripts/change_object_names.py:201-214 | flushing a batch after earlier ones equals one relocation with all moves so far |
| `ObjectNames.BatchRelocatedOnce` | worker/worker/clientScripts/change_object_names.py:216-233 | the same for directories |
| `ObjectNames.NameChanger.constructor` | worker/worker/clientScripts/change_object_names.py:52-81 | both indexes start empty |
| `ObjectNames.NameChanger.ApplyFileUpdates` | worker/worker/clientScripts/change_object_names.py:114-166 | all indexed file records are relocated, with one event each that says from where to where (see OneEventPerMove), and the index is reset |
| `ObjectNames.NameChanger.ApplyDirUpdates` | worker/worker/clientScripts/change_object_names.py:168-199 | the same for directory records, without events |
| `ObjectNames.NameChanger.AddFileToBatch` | worker/worker/clientScripts/change_object_names.py:201-214 | a file is indexed and the batch flushed once it is full |
| `ObjectNames.NameChanger.AddDirToBatch` | worker/worker/clientScripts/change_object_names.py:216-233 | a directory is indexed and the batch flushed once it is full |
| `ObjectNames.NameChanger.ChangeObjects` | worker/worker/clientScripts/change_object_names.py:235-257 | for every tree and batch size: records and events are those of applying the whole old-to-new map once; after an exception, those of applying the full batches yielded before it, with the rest of the moves left in the indexes |
| `ObjectNames.NameChanger.ChangeTree` | worker/worker/clientScripts/change_names.py:74-97 | the generator, with the loop over its tuples run at every yield |
| `ObjectNames.NameChanger.ChangeEntry` | worker/worker/clientScripts/change_names.py:83-97 | one entry: renamed, yielded, recorded, and walked if it is a directory |
| `ObjectNames.NameChanger.Record` | worker/worker/clientScripts/change_object_names.py:241-253 | one tuple: a changed entry goes to the batch of its kind, which is written when full |
| `ObjectNames.NameChanger.FinishBatches` | worker/worker/clientScripts/change_object_names.py:255-257 | writing the last batches completes the one-shot relocation |
| `ObjectNames.RecordsFollowTheTree` | worker/worker/clientScripts/change_object_names.py:235-257 | a record that pointed at an entry of the tree points at the same entry under its new path |
| `ObjectNames.RecordsAndEvents` | worker/worker/clientScripts/change_object_names.py:235-257 | of a walk that gets through: each new event has the location of its record before the run as the old one and that after it as the new one; a record has such an event exactly if its location changed, and no other |
| `ObjectNames.RowsFollow` | worker/worker/clientScripts/change_object_names.py:235-257 | every record of an entry of the unit ends at the path of this entry, all others stay as they are |
| `ObjectNames.RecordsAgreeExactly` | worker/worker/clientScripts/change_object_names.py:235-277 | after an exception the records still agree with the disk exactly if both last batches were just full and the directory in which the walk stopped has a clean path |
| `ObjectNames.KindAgrees` | worker/worker/clientScripts/change_object_names.py:235-257 | with the first moves of one kind written, its records agree with the disk exactly if these are all its moves and no entry of the kind was moved without being reached |
| `ObjectNames.WholeBatches` | worker/worker/clientScripts/change_object_names.py:201-233 | what has been written is a whole number of batches: only the last one, not yet full, waits |
| `ObjectNames.RecordsLeftBehind` | worker/worker/clientScripts/change_object_names.py:235-277 | a directory of two files of which the second cannot be renamed: the record of the first is left behind |
| `ObjectNames.SuchNames` | worker/worker/clientScripts/change_names.py:46-71 | such a pair of names, under a limit of one character |
| `Mets.PointersAreFiled` | worker/worker/clientScripts/create_mets_v2.py:1060-1309 | files filed and pointers made agree in order exactly if every use met is known; every pointer without a file raised an error |
| `Mets.PointersFollowTheTree` | worker/worker/clientScripts/create_mets_v2.py:1036-1309 | the pointers are the recorded files of the tree in walk order |
| `Mets.ListedDistinct` | worker/worker/clientScripts/create_mets_v2.py:1060-1110 | file identifiers of different paths are different |
| `MetsFiles.WalkFiles` | worker/worker/clientScripts/create_mets_v2.py:1058-1288 | the files filed are exactly those with a record of a known use, each with its identifier, path and use, in the group 'Group-' and the group of its record, or else itself if it is a group of its own, or else its source if it is derived |
| `MetsFiles.SameGroup` | worker/worker/clientScripts/create_mets_v2.py:1135-1222 | a preservation, text, derivative or service copy without a group in its record is in the group of a file that is one of its own exactly if that file is its source |
| `MetsFiles.WalkErrors` | worker/worker/clientScripts/create_mets_v2.py:1058-1288 | one error is counted for a file without a record, for one without a group and for one without a known use; the walk raises exactly at a derived file whose source is not found |
| `MetsFiles.WalkMirrors` | worker/worker/clientScripts/create_mets_v2.py:1022-1122 | the divs mirror the tree: a directory with what is below it, a file under its title or name with its pointer, nothing for a file without a record |
| `MetsBuilder.SectionsHold` | worker/worker/clientScripts/create_mets_v2.py:280-366 | CSV metadata gives at most one section of each kind, holding exactly the fields of that kind |
| `MetsBuilder.CsvSectionsHold` | worker/worker/clientScripts/create_mets_v2.py:280-366 | Dublin Core columns are in one section and all others in another, each in their order; the one of the first column comes first and the numbers follow the counter |
| `MetsBuilder.CounterIdsDistinct` | worker/worker/clientScripts/create_mets_v2.py:80-124 | all identifiers made from the five counters are distinct |
| `MetsBuilder.AppendedRises` | worker/worker/clientScripts/create_mets_v2.py:822-893 | a new amdSec keeps every list of numbers rising |
| `MetsBuilder.MetsState.NewDmdSec` | worker/worker/clientScripts/create_mets_v2.py:1017-1021 | a dmdSec gets the next number and its identifier |
| `MetsBuilder.MetsState.CreateDmdSecsFromCsv` | worker/worker/clientScripts/create_mets_v2.py:280-366 | the loop over the metadata adds the sections in order and returns their identifiers |
| `MetsBuilder.MetsState.GetAmdSec` | worker/worker/clientScripts/create_mets_v2.py:822-893 | an amdSec has the next number, one techMD, a rightsMD for each rights statement of transfer and file and a digiprovMD for each event and agent, and the counters advance by as many |
| `FileSec.AddFile` | worker/worker/clientScripts/create_mets_v2.py:1060-1309 | one file of the directory: pointer, file element and errors as the walk has them (see MetsFiles.WalkFiles); its div has the DMDIDs of exactly the sections made for it, and with administrative sections the file has an ADMID for the one section added, without them none |
| `FileSec.DescribeDirectory` | worker/worker/clientScripts/create_mets_v2.py:1012-1035 | a directory gets the section of its record and those of its CSV metadata, in this order, and its DMDIDs are theirs |
| `FileSec.CreateFileSec` | worker/worker/clientScripts/create_mets_v2.py:977-1309 | the recursive builder makes the structMap and file groups of the walk (see MetsFiles.WalkFiles for the groups); each div refers to exactly the sections made for it, each filed file to an administrative section of its own with what belongs to it, if these are wanted; counters rise and references resolve |
| `FileSec.AddEntries` | worker/worker/clientScripts/create_mets_v2.py:1037-1309 | the loop over the entries keeps this for what is done and what remains |
| `FileReferences.ReferringTwice` | worker/worker/clientScripts/create_mets_v2.py:1267-1303 | one-to-one reference between files and administrative sections composes over consecutive parts of a walk |
| `FileReferences.AdmsSplit` | worker/worker/clientScripts/create_mets_v2.py:1267-1303 | the references of all groups are those of any one group and of the others |
| `MetsDocument.AddObjectMetadata` | worker/worker/clientScripts/create_mets_v2.py:1414-1488 | the objects div is given an ADMID if any metadata is found; the section is kept only if it has children (line 1786) |
| `MetsDocument.DanglingExactly` | worker/worker/clientScripts/create_mets_v2.py:1785-1787 | that ADMID names no section exactly if there is metadata and none of it gives a child |
| `MetsDocument.AddDirectory` | worker/worker/clientScripts/create_mets_v2.py:1774-1800 | walking one of the two directories extends the document and nothing else |
| `MetsDocument.BuildDocument` | worker/worker/clientScripts/create_mets_v2.py:1729-1855 | None exactly where the script raises; otherwise the sections of package, objects and metadata follow each other, each referred to by its own div, administrative sections correspond one to one to files and the kept section of the objects div, references resolve but for that one, the file section grows by both walks, and errors add up |
| `MetsDocument.AddParts` | worker/worker/clientScripts/create_mets_v2.py:1762-1800 | the same of what is collected before the structural map is put together |
| `MetsDocument.KeptReferred` | worker/worker/clientScripts/create_mets_v2.py:1785-1800 | with the section of the objects div in between, the sections added are those of the files of both walks and that one |
| `SectionReferences.EntriesRefer` | worker/worker/clientScripts/create_mets_v2.py:1012-1309 | the divs of a walk refer to the descriptive sections made on the way, each once and in order, and these have the next numbers |
| `SectionReferences.SectionsReferredExactly` | worker/worker/clientScripts/create_mets_v2.py:1820-1837 | every descriptive section is referred to exactly if the Dublin Core section is absent or replaces no reference |
| `SectionReferences.DescriptiveUsedAnew` | worker/worker/clientScripts/create_mets_v2.py:1762-1837 | of a new document, on its input: the sections have consecutive numbers, the package's own first; all are referred to exactly if there is no Dublin Core section or the objects directory (without one, the package) has no section of its own; without it the map refers to each section once, in order |
| `SectionReferences.DirectorySecsAre` | worker/worker/clientScripts/create_mets_v2.py:1012-1035 | a directory has a section if it has a record, with or without a slash at its end, and those of its columns |
| `SectionReferences.FileSecsAre` | worker/worker/clientScripts/create_mets_v2.py:1135-1155 | an original that is a group of its own has the sections of the columns for its path in the transfer; other files have none |
| `MetsReferences.FilesAndPointersAgree` | worker/worker/clientScripts/create_mets_v2.py:977-1309 | fptr FILEIDs are distinct and in bijection with the files of the file section exactly if every use is known; a walk without errors is such |
| `MetsReferences.NewDocument` | worker/worker/clientScripts/create_mets_v2.py:1696-1855 | None exactly where the script raises; the finished document lists the files of the tree with group, use and path as their records say, its divs mirror the tree, pointers are distinct and without counted errors the same as the files; files and objects div use the administrative sections one to one; descriptive sections are referred to as stated above |
| `MetsContents.DocumentFiles` | worker/worker/clientScripts/create_mets_v2.py:1729-1855 | the files of the finished document are exactly those of the tree with a record of a known use, each under its use with its identifier, group and path |
| `MetsContents.PackageWalk` | worker/worker/clientScripts/create_mets_v2.py:1762-1800 | the two walks are one walk of the package directory |
| `MetsReferences.StructMapPointers` | worker/worker/clientScripts/create_mets_v2.py:1729-1855 | the pointers of the structural map are those of both walks, in order, wherever the descriptive sections went |
| `MetsReferences.PointersDistinct` | worker/worker/clientScripts/create_mets_v2.py:977-1309 | no two pointers of the document are equal, across both directories |
| `Controller.PackageController.Enqueue` | internal/controller/controller.go:185-190 | queue appends the package and counts it |
| `Controller.PackageController.PickNext` | internal/controller/controller.go:192-211 | pick activates the first queued package unless exactly two are active |
| `Controller.PackageController.DeactivatePackage` | internal/controller/controller.go:239-251 | the first matching active package leaves, with both gauges |
| `Controller.PackageController.MoveToAwait` | internal/controller/controller.go:270-297 | an active package moves to the awaiting map; an error exactly if it is not active |
| `Controller.PackageController.MoveFromAwait` | internal/controller/controller.go:299-334 | the decision leaves the awaiting map, no empty list stays, and the package is active again |
| `Scheduler.InvStep` | internal/controller/controller.go:185-334 | every step of the interleaving keeps the invariant |
| `Scheduler.Conservation` | internal/controller/controller.go:185-334 | in every reachable state, per package identifier: active plus pending decisions equals live goroutines, no empty list, gauges agree, started followed by queued is the order of submission |
| `Scheduler.SearchesSucceed` | internal/controller/controller.go:254-334 | the searches of await, deactivate and the two moves never fail, so the ignored error does not occur |
| `Scheduler.StepEffect` | internal/controller/controller.go:185-334 | what a step does to the lists: the first queued package starts, packages become active at the end of the list, decisions wait in order, the first match leaves; while pick holds the lock nothing changes |
| `Scheduler.SlotsTaken` | internal/controller/controller.go:211-236 | a goroutine takes one of the ten slots when it starts and keeps it while it waits and after its package is deactivated, until it returns |
| `Scheduler.ResolvedFirst` | internal/controller/controller.go:254-268 | a package resumes only once its decision has been resolved |
| `Scheduler.InFlightBound` | internal/controller/controller.go:94-94 | with the lock free, at most ten packages are active or awaiting |
| `Scheduler.PickReturnsExactly` | internal/controller/controller.go:192-236 | pick can return exactly unless ten packages are in flight, none leaving, with a non-empty queue and an active count other than two |
| `Scheduler.StuckForever` | internal/controller/controller.go:192-236 | from the stuck state nothing that can happen releases a slot |
| `Scheduler.DeadlockIsReachable` | internal/controller/controller.go:192-236 | the stuck state is reachable: ten packages awaiting and one more submitted |
| `Scheduler.TwoActiveWithoutResume` | internal/controller/controller.go:26-26 | as long as no package resumes from a decision, at most two are active |
| `Scheduler.TwoActiveExactly` | internal/controller/controller.go:192-334 | throughout a run at most two packages are active exactly if every resumption finds fewer than two active, the guard that dequeueFromAwait lacks |
| `Scheduler.ManyActiveIsReachable` | internal/controller/controller.go:192-211 | with resumed decisions any number of packages up to ten can be active |
| `CommandLine.Escape` | internal/controller/package.go:674-693 | the two-pass escaping loop equals the one-pass specification |
| `CommandLine.TwoPassesAreOne` | internal/controller/package.go:674-693 | doubling and then escaping turns each backslash into four |
| `CommandSyntax.EscapedHolds` | internal/controller/package.go:674-693 | character by character: a backslash becomes four, a double quote or a backtick gets one in front, all others stay |
| `CommandLine.RoundTrip` | worker/worker/client/utils.py:13-21 | any list of quoted arguments joined by spaces is parsed into the same list with each backslash doubled |
| `CommandLine.RoundTripExactly` | worker/worker/client/utils.py:13-21 | it is parsed into the same list exactly if no argument holds a backslash |
| `CommandLine.RoundTripInjective` | worker/worker/client/utils.py:13-21 | different argument lists stay different |
| `CommandSyntax.DoubledHolds` | worker/worker/client/utils.py:13-21 | what arrives for a value has each backslash twice and every other character once |
| `CommandSyntax.LineParses` | worker/worker/client/utils.py:13-21 | any line of bare text, backslashes, single and double quotes is read as its words, and refused exactly if a quotation is not closed or nothing follows a backslash |
| `CommandSyntax.UnescapedDrops` | worker/worker/client/utils.py:13-21 | a backslash directly before a backtick is dropped, whatever stands around the two |
| `CommandSyntax.UnescapedKeeps` | worker/worker/client/utils.py:13-21 | nothing else is dropped |
| `CommandWords.LineArrives` | worker/worker/client/utils.py:13-21 | any line of arguments, each made of bare and double-quoted parts and with any number of spaces between them, reads back as their values with each backslash doubled |
| `Replacements.ReplacedFirst` | internal/controller/package.go:749-749 | the first occurrence of a key is replaced, and the text after it treated in the same way |
| `Replacements.ReplacedNowhere` | internal/controller/package.go:749-749 | text without the key stays |
| `Replacements.ReplaceIsFill` | internal/controller/package.go:749-749 | replacing one key touches just the placeholders of the template exactly if no other text between two keys spells the key |
| `Replacements.FaithfulExactly` | internal/controller/package.go:726-753 | every order of the map touches just placeholders exactly if no text between two keys can come to spell a key |
| `ReplacementOrders.IntendedExactly` | internal/controller/package.go:726-753 | every order of the map gives the simultaneous substitution exactly if no text between two keys can come to spell a key |
| `ReplacementOrders.AmbiguousGoesWrong` | internal/controller/package.go:726-753 | for an ambiguous template, an order whose result is not the simultaneous substitution |
| `ReplacementOrders.PrefixRun` | internal/controller/package.go:726-753 | a run on a template followed by text that keeps a percent sign at its start splits there, if the template is replaced faithfully |
| `ReplacementOrders.SafeOrder` | internal/controller/package.go:726-753 | some order of the map leaves a name it does not hold where it stands |
| `Replacements.SimultaneousSubstitution` | internal/controller/package.go:726-753 | then every order gives the simultaneous substitution |
| `Replacements.InnerValueClashes` | internal/controller/package.go:726-753 | a condition on literals alone is not enough: a value between two keys can spell a key, and two orders differ |
| `SharedPaths.RebasedEscaped` | internal/controller/package.go:734-748 | rewriting a temporary shared path commutes with escaping |
| `SharedPaths.RebasedPlain` | internal/controller/package.go:734-748 | the rewriting adds no percent sign |
| `SharedLocations.RebasedLeads` | internal/controller/package.go:734-748 | a path below a temporary shared directory leads to the same place below, or as many steps above, the directory the worker expects |
| `SharedLocations.RebasedSlash` | internal/controller/package.go:734-748 | a slash at its end stays |
| `SharedLocations.RebasedIdle` | internal/controller/path.go:26-41 | empty components, dots, and steps down and up again make no difference |
| `SharedLocations.RebasedNowhere` | internal/controller/path.go:26-41 | written with components that lead nowhere else, it keeps a dot |
| `SharedLocations.RebasedAlone` | internal/controller/package.go:734-748 | the temporary directory itself, with a slash at the end, ends with two |
| `SharedLocations.OtherwiseUnchanged` | internal/controller/package.go:734-748 | any other text stays |
| `ReplacementMapping.Mapping.Update` | internal/controller/package.go:708-714 | the context overwrites the mapping in place: for each key its last entry decides, other keys stay |
| `ReplacementMapping.Mapping.With` | internal/controller/package.go:717-724 | a fresh merged mapping in which the input wins; the operands are unchanged |
| `ReplacementMapping.Mapping.ReplaceValues` | internal/controller/package.go:726-753 | the result is that of replacing all keys in some order of the map; the empty input gives the empty result |
| `ReplacementMapping.CommandArrives` | internal/controller/package.go:726-753 | from template to worker: in every order of the map, the worker receives the arguments of the template, bare and quoted parts joined as they stand, with each key replaced by its value and backslashes doubled |
| `MetadataRows.FetchKeys` | worker/worker/clientScripts/json_metadata_to_csv.py:7-48 | the header: filename in the first column if some object has it, or else parts; the other keys rise strictly; each key stands side by side as often as its longest list needs, and no other key is there |
| `MetadataRows.HeaderHolds` | worker/worker/clientScripts/json_metadata_to_csv.py:32-48 | any header made like this is what the statement above says, of the objects alone |
| `MetadataRows.CountLists` | worker/worker/clientScripts/json_metadata_to_csv.py:17-30 | the counting loops find the longest list of every key |
| `MetadataRows.OrderedHolds` | worker/worker/clientScripts/json_metadata_to_csv.py:32-41 | the ordered keys are the keys of the objects, each once |
| `MetadataRows.InsertCopies` | worker/worker/clientScripts/json_metadata_to_csv.py:43-48 | inserting copies after the first occurrence widens one key and leaves the others |
| `MetadataCsv.ObjectToRow` | worker/worker/clientScripts/json_metadata_to_csv.py:62-86 | the loop over the headers equals its specification |
| `MetadataCsv.RowIsBlocks` | worker/worker/clientScripts/json_metadata_to_csv.py:62-86 | the row is, key by key, the scalar once or the items of the list in order, padded with None |
| `MetadataCsv.RowFitsHeader` | worker/worker/clientScripts/json_metadata_to_csv.py:62-86 | a row has a cell for every column |
| `MetadataCsv.WriteCsv` | worker/worker/clientScripts/json_metadata_to_csv.py:100-112 | the header row and one row for each object |
| `MetadataCsv.ParseMetadataCsv` | worker/worker/clientScripts/archivematicaCreateMETSMetadataCSV.py:80-129 | the loop over the rows files each one under its name; the last row of a name decides |
| `MetadataCsv.AddedCopies` | worker/worker/clientScripts/archivematicaCreateMETSMetadataCSV.py:70-77 | the values under the copies of a key gather in its list, in order, without empty ones |
| `MetadataCsv.MeaningHolds` | worker/worker/clientScripts/archivematicaCreateMETSMetadataCSV.py:100-129 | what is recorded of an object lists under each key its non-empty values in order |
| `MetadataCsv.RoundTrip` | worker/worker/clientScripts/json_metadata_to_csv.py:89-114 | writing any objects to CSV and parsing it: exactly the names of the objects are known, and under each heading stand the values of the last object of the name, in order, without the empty ones; keys that differ only in outer white space gather under one heading, and a list in the first column gives its first item as the name and keeps the others |
| `MetadataCsv.RoundTripInOrder` | worker/worker/clientScripts/json_metadata_to_csv.py:89-114 | with trimmed keys and one column for the name, the headings also keep their order |
| `MetadataCsv.ObjectsReadBack` | worker/worker/clientScripts/archivematicaCreateMETSMetadataCSV.py:80-129 | said of the objects: with a filename (or parts) column, a file is known exactly if some object has it there, stripped of white space and final slashes, and under each heading stands what the last such object gives there |
| `Workflow.JobIterator.Init` | internal/controller/iterator.go:43-59 | init marks the package and starts at the chain |
| `Workflow.JobIterator.NextJob` | internal/controller/iterator.go:61-132 | next follows the step function, with all its error returns |
| `Workflow.JobIterator.RunJob` | internal/controller/iterator.go:98-131 | the outcome of a job decides the package status and where to go on |
| `Workflow.JobIterator.Exec` | internal/controller/jobs.go:102-122 | a job is created, run and recorded as waiting or complete unless its status is final |
| `Workflow.JobIterator.Await` | internal/controller/jobs_decision.go:152-167 | a resolution completes the job and moves the iterator to the chosen link |
| `Workflow.JobIterator.Run` | internal/controller/controller.go:218-235 | the goroutine loop is the fold of its turns |
| `WorkflowTurns.ClientJobTurn` | internal/controller/jobs_client.go:39-62 | a client job that runs: a listed exit code gives its status and goes to its own link, or ends chain or workflow by the link if it has none; an unlisted one goes to the fallback |
| `WorkflowTurns.FailedJobTurn` | internal/controller/iterator.go:98-127 | a job that cannot be created leaves no trace, one that fails later is left as executing, and the package fails |
| `WorkflowTurns.UnrecordedTurn` | internal/controller/jobs.go:102-122 | a job that runs in the controller fails if its status cannot be recorded, whatever it has done |
| `WorkflowTurns.UnresolvedTurn` | internal/controller/jobs_decision.go:152-167 | a decision is abandoned with the controller, a position that was not offered is a panic, and a resolution that cannot be recorded leaves the job awaiting |
| `WorkflowTurns.SetVariableTurn` | internal/controller/jobs_local.go:39-47 | the link goes into the variable and processing goes on at the next link |
| `WorkflowTurns.GetVariableTurn` | internal/controller/jobs_local.go:73-88 | processing goes on at what the variable holds, or at the default link |
| `WorkflowTurns.StoredIsFollowed` | internal/controller/jobs_local.go:39-88 | what one job stored is where a later job that reads the variable goes on, as long as no job in between sets it |
| `WorkflowTurns.PreconfiguredTurn` | internal/controller/jobs_decision.go:222-246 | a preconfigured chain is taken at once |
| `WorkflowTurns.NextChainTurn` | internal/controller/jobs_decision.go:248-266 | without one, the chain at the resolved position among the known ones is taken |
| `WorkflowTurns.SettingsTurn` | internal/controller/jobs_decision.go:327-355 | settings found for the decision enter the context of the chain |
| `WorkflowTurns.UpdateContextTurn` | internal/controller/jobs_decision.go:357-370 | without them, the resolved replacement enters the context under its name between percent signs |
| `WorkflowTurns.ChainTurn` | internal/controller/iterator.go:75-88 | a chain is entered at its first link with its own context, or where part of the first chain is bypassed |
| `WorkflowTurns.FirstTurn` | internal/controller/iterator.go:43-73 | a run starts by marking the package, with the chain it is started with |
| `WorkflowRuns.WorkStatuses` | internal/controller/jobs.go:102-194 | the statuses one execution writes: 3 then 1 for a waiting decision, 3 and one final status otherwise, 3 alone on failure |
| `WorkflowRuns.JobStatuses` | internal/controller/jobs.go:102-194 | over whole runs, whatever fails: each job has at most one final status, as its last; a client job the one its link gives for the exit code it had; decisions go 3, 1, 2 or 3, 2 |
| `WorkflowRuns.PackageStatuses` | internal/controller/iterator.go:104-128 | over whole runs: the package is marked Done or Failed at most once, as the last write; Done only at the end of the workflow, Failed only on a job error |
| `WorkflowRuns.EndsAtEndLink` | internal/controller/iterator.go:107-112 | the workflow ends only after a client job on an End link whose exit code leads nowhere |
| `WorkflowRuns.DoneAtEndLink` | internal/controller/iterator.go:104-128 | over whole runs: a package marked Done ended with a client job on an End link whose exit code, the one that job had, leads nowhere |
| `WorkflowRuns.ClosedRuns` | internal/controller/iterator.go:61-96 | in a closed document no run misses a chain or a link, and init runs once |
| `WorkflowRuns.RestartsWithoutLink` | internal/controller/jobs_local.go:73-88 | a local job with nowhere to go makes the iterator start over: the closure condition is needed |
| `WorkflowRuns.NeverRestartsExactly` | internal/controller/iterator.go:61-132 | for every document: no turn with a preconfigured chain leads a started iterator back to the start exactly if every chain and every link leads on, link by link according to its kind |
| `WorkflowRuns.ClosedLeadsOn` | internal/controller/iterator.go:61-96 | a closed document leads on |
| `WorkflowRuns.StartsOnce` | internal/controller/iterator.go:43-132 | in every run of a document that leads on, whatever fails, the package is marked as processing at most once |
| `WorkflowRuns.DecisionResumes` | internal/controller/jobs_decision.go:152-167 | a resolved decision resumes exactly at the chosen choice, with its value in the context of the chain |
| `WorkflowRuns.RunsEnd` | internal/controller/iterator.go:61-132 | in a closed document with a ranking no run takes more iterations than the rank of its first chain |
| `WorkflowGraphs.RankedExactly` | internal/controller/iterator.go:61-132 | a document has a ranking exactly if no cycle runs along its chains, exit codes, fallbacks, choices and unit variables |
| `WorkflowGraphs.AcyclicRunsEnd` | internal/controller/iterator.go:61-132 | a closed document without cycles: no run takes more iterations than it has chains and links |
| `WorkflowGraphs.StartsTwiceExactly` | internal/controller/iterator.go:43-132 | some run marks the package as processing twice exactly if some run reaches a chain or a link that does not lead on |
| `TaskBatches.HandleJob` | worker/worker/client/gearman.py:100-165 | the worker replies once for every task of a batch |
| `TaskBatches.ArrivesExactly` | worker/worker/client/gearman.py:99-118 | what the script left arrives exactly if standard error is empty and standard output is empty or asked for |
| `TaskBatches.ReplyDecodes` | worker/worker/client/gearman.py:99-118 | of what the script left the exit code comes back, standard output if it was asked for, and never standard error |
| `TaskBatches.TaskBackend.constructor` | internal/controller/task.go:81-94 | an empty backend over a buffer of one batch |
| `TaskBatches.TaskBackend.Submit` | internal/controller/task.go:96-121 | a task that asks for its output, or has a file for it, joins the batch, which is sent when it is full or lost if it cannot be saved; sent batches never change though the buffer is used again |
| `TaskBatches.TaskBackend.SendBatch` | internal/controller/task.go:123-204 | all tasks of the batch are recorded and the batch is sent, or nothing is sent if they cannot be saved |
| `TaskBatches.TaskBackend.Flush` | internal/controller/task.go:274-280 | waiting first sends what is left |
| `TaskBatches.TaskBackend.HandleJobUpdate` | internal/controller/task.go:236-272 | the results of a completed batch are stored under their tasks; failed batches store nothing |
| `TaskBatches.ProcessTaskResults` | internal/controller/jobs.go:198-217 | the largest exit code, at least 0, in whatever order the results are ranged over |
| `TaskRuns.BatchingRefines` | internal/controller/task.go:96-204 | over all interleavings: the batches are the submitted tasks cut into full pieces and a last one, and the results are those of the tasks whose batches succeeded, each as if run alone |
| `TaskRuns.SubmittedAre` | internal/controller/task.go:96-112 | the tasks of a run are what was submitted, in order; one with a file for its output asks for the output |
| `TaskRuns.BatchingInvisible` | internal/controller/task.go:236-290 | the results equal those of running the tasks one by one, for every batch size and order of completion, exactly if every batch succeeds |
| `TaskRuns.ScriptResultsExactly` | internal/controller/task.go:236-290 | at the end of a run the controller holds what the script left for every task exactly if every batch succeeded and no task had output that is not sent back or sent under another name |
| `TaskRuns.ExitCodeUnique` | internal/controller/jobs.go:198-217 | so the exit code is determined |
| `TaskRuns.ExitCodeExactly` | internal/controller/jobs.go:198-217 | the exit code is that of running the tasks one by one exactly if that is 0 or a task of a successful batch has it |
| `TaskRuns.FailuresAreSilent` | internal/controller/task.go:246-252 | batches that fail leave no trace: without a success the exit code is 0 |
| `PremisImport.Relate` | worker/worker/clientScripts/load_premis_events_from_xml.py:714-733 | links are closed: an event gets every element that names it |
| `PremisImport.FindUnrelated` | worker/worker/clientScripts/load_premis_events_from_xml.py:460-493 | finds an element in no event's set, if there is one |
| `PremisImport.FindUnrelatedEvents` | worker/worker/clientScripts/load_premis_events_from_xml.py:496-511 | finds an event without files or agents, if there is one |
| `PremisImport.FindDangling` | worker/worker/clientScripts/load_premis_events_from_xml.py:526-603 | finds a reference to a nonexistent element, if there is one |
| `PremisImport.GetInvalidFileIdentifiers` | worker/worker/clientScripts/load_premis_events_from_xml.py:439-457 | the files without a name or without a file of the transfer |
| `PremisImport.GetValidEvents` | worker/worker/clientScripts/load_premis_events_from_xml.py:736-772 | exactly the events with an agent and a valid file, with these |
| `PremisImport.CheckedIsWellLinked` | worker/worker/clientScripts/load_premis_events_from_xml.py:514-616 | the searches decide exactly the property of the document: every link, stated by either side, leads to an element, nothing is unlinked, every event has an agent and a file of the transfer |
| `PremisImport.EventTable.SaveEvents` | worker/worker/clientScripts/load_premis_events_from_xml.py:676-711 | the nested loops save one row for each file of each event (what the rows hold is in ImportedRows) |
| `PremisImport.EventTable.Import` | worker/worker/clientScripts/load_premis_events_from_xml.py:775-837 | success exactly if the document is well linked; otherwise nothing is saved |
| `PremisImport.ImportedRows` | worker/worker/clientScripts/load_premis_events_from_xml.py:664-711 | after the earlier rows there is one row for each link between an event and a file of the transfer, with this event and file and all agents linked with the event, and no other; the first row of an event keeps its identifier if this is an unused UUID, all identifiers are distinct |
| `PremisImport.EventRowsRight` | worker/worker/clientScripts/load_premis_events_from_xml.py:664-711 | every new row has the agents of its event, and as identifier that of the event if it is the event's first row and this is a UUID not yet used, or else an unused one |
| `PremisImport.RowsHaveAgents` | worker/worker/clientScripts/load_premis_events_from_xml.py:680-701 | in a well-linked document the agents of a row are exactly those its event is linked with, at least one |
| `WorkerPool.GetWorkerInitArgs` | worker/worker/client/pool.py:173-195 | the nested loops compute the allocation |
| `WorkerPool.WorkerGetsScript` | worker/worker/client/pool.py:173-195 | worker i registers a script exactly if more than i instances are wanted |
| `WorkerPool.WorkerTakesInOrder` | worker/worker/client/pool.py:173-195 | and registers its scripts in the order of the demands |
| `WorkerPool.RegisteredCount` | worker/worker/client/pool.py:173-195 | a script is registered by min(required, pool size) workers |
| `WorkerPool.PoolSizeIs` | worker/worker/client/pool.py:116-121 | the size of the pool is the setting or the largest demand, whichever is smaller |
| `WorkerPool.NobodyIdle` | worker/worker/client/pool.py:116-121 | no worker is without a script and no wanted script is lost |
| `WorkerPool.ProcessPool.Start` | worker/worker/client/pool.py:126-140 | one live process for every place |
| `WorkerPool.ProcessPool.RestartExitedWorkers` | worker/worker/client/pool.py:205-217 | every exited process is replaced by a live one at its own place, the others keep theirs, nothing else is started, and the result says whether any had exited |
| `WorkerPool.NeverTooMany` | worker/worker/client/pool.py:205-231 | whatever exits and restarts, live processes registered for a script never exceed its demand |
| `NormativeStructMap.WalkListsAll` | worker/worker/clientScripts/create_mets_v2.py:1529-1548 | the listed items are the directory and all paths below it, each once |
| `NormativeStructMap.WalkHolds` | worker/worker/clientScripts/create_mets_v2.py:1529-1548 | an item is listed exactly if the tree holds it; the directories without entries are the empty ones |
| `NormativeStructMap.FilesFirst` | worker/worker/clientScripts/create_mets_v2.py:1529-1548 | a directory is listed before its files, and these in order before what lies below |
| `NormativeStructMap.WalkFindsParents` | worker/worker/clientScripts/create_mets_v2.py:1655-1684 | no parent is ever missing from the index, although skipped empty directories never enter it |
| `NormativeStructMap.NormativeBuilder.AddNormativeStructMapDivs` | worker/worker/clientScripts/create_mets_v2.py:1633-1684 | the loop builds the tree, or stops exactly where a parent is missing |
| `NormativeStructMap.BuildDocuments` | worker/worker/clientScripts/create_mets_v2.py:1655-1684 | each item has a div with its path and type, and a dmdSec exactly if it is an empty directory outside the transfer metadata |
| `NormativeStructMap.NormativePaths` | worker/worker/clientScripts/create_mets_v2.py:1602-1684 | for every directory tree the divs are exactly the paths of the tree, empty directories included, below a root with the title of the package; the empty ones outside the transfer metadata have dmdSecs with the next numbers |
| `TransferTree.BatchQuery` | worker/worker/clientScripts/create_transfer_mets.py:205-213 | paging reads every record once, in order, for every page size |
| `TransferTree.FsEntriesTree.BuildTree` | worker/worker/clientScripts/create_transfer_mets.py:185-203 | the recursion builds the tree and both indexes |
| `TransferTree.BuiltFromEmpty` | worker/worker/clientScripts/create_transfer_mets.py:185-203 | every entry is in the tree once, in walk order, and the index finds every file |
| `TransferTree.BuiltInPlace` | worker/worker/clientScripts/create_transfer_mets.py:185-203 | every entry lies in the directory that is its parent, children are in the order of the listing, and the index finds every directory |
| `TransferTree.FsEntriesTree.LoadFileData` | worker/worker/clientScripts/create_transfer_mets.py:215-232 | records give their files an identifier |
| `TransferTree.FsEntriesTree.CheckForMissingFileUuids` | worker/worker/clientScripts/create_transfer_mets.py:284-297 | exactly the files without an identifier leave the tree and the index |
| `TransferTree.FsEntriesTree.Scan` | worker/worker/clientScripts/create_transfer_mets.py:175-180 | the entries are those of the directory, below their own parents and in order; the indexes are exactly the directories and the files left in the tree; exactly the files without a record are gone, and a file has the identifier of the last record of its location |
| `TransferTree.ScanHolds` | worker/worker/clientScripts/create_transfer_mets.py:175-297 | if building, loading and checking each do what they promise, exactly the files without a record leave the tree and the index, and every other file carries the identifier of its record |
| `TransferTree.ScanPlaces` | worker/worker/clientScripts/create_transfer_mets.py:175-297 | parents and directories stay as they were built |

## Left out

- Everything behind an interface: SQL and the Django ORM, Gearman, gRPC and HTTP, fsnotify, lxml and metsrw internals, logging and metrics. The database is maps and sequences, XML is small tree datatypes, and whether a write succeeds is a parameter.
- `unidecode` is a parameter that keeps ASCII; Unicode normalization (NFC) is taken as the identity; text is a sequence of characters, not bytes, so invalid UTF-8 in replacement values is not modelled.
- Directory scans are snapshots, and testing for a path and moving it is one step: races with other processes on the file system are not modelled.
- The agents attached to events in `change_object_names.py`, and the details of events other than the two locations.
- In the METS builder: DSpace, TRIM and Dataverse branches, reingest, custom structMaps, arrangement, the contents of PREMIS and Dublin Core sections, and the local numbers of sourceMD elements.
- Copying DMDIDs from the physical to the normative structMap (`update_normative_structmap_dmdids`), which works on live lxml proxies.
- The queue gauge of the controller is summed over package types.
- The locks of single decisions and concurrent resolutions of one decision: a resolution is one value given to the waiting goroutine.
- Which settings or preconfigured context a decision job finds: the dictionary it loads is a parameter; so is the chain preconfigured for a next-chain job, which the code does not compare with the chosen choices.
- WorkflowRuns.DecisionResumes: requires a position in range; out of range the code indexes past the end, which `Workflow.Resolve` records as a panic.
- WorkflowRuns.ClosedRuns: requires a preconfigured chain to be known to the document, because the code does not check it.
- WorkflowRuns.NeverRestartsExactly: requires that no chain has the nil identifier, and speaks of turns whose preconfigured chain is not nil, because the code does not check it.
- WorkflowGraphs.StartsTwiceExactly: the same.
- WorkflowGraphs.AcyclicRunsEnd: is about closed documents, whose preconfigured chains and loaded choices are known to the document, because the code does not check these.
- ReplacementOrders.IntendedExactly: requires keys of the form %name% with non-empty names and values without percent signs.
- ReplacementMapping.CommandArrives: covers templates whose arguments are made of double-quoted parts and bare parts, the bare ones without keys, quotes and backslashes; single quotes do not occur in them.
- Worker-side tokens such as %sharedPath% or %date% (`replace_task_arguments`) are assumed not to occur in values.
- CSV quoting: a row is a sequence of strings in which None reads back as the empty string; `str.strip` strips ASCII white space only.
- MetadataCsv.RoundTripInOrder: requires trimmed keys and a first column that is not repeated; `MetadataCsv.RoundTrip` does not, and leaves the order of the headings open.
- Merging the metadata of several CSV files (`parseMetadata`).
- Writing task output to files and persisting tasks, beyond whether they could be saved.
- PremisImport.ImportedRows: the lookup of a file by location is taken to find one record.
- XML parsing and schema validation of the PREMIS file, and the attributes of events and agents other than their identifiers and links.
- TransferTree.FsEntriesTree.Scan: takes the entries of a directory in sorted order as given, and leaves out rights, directory identifiers and the PREMIS data attached to files.
- Command wrappers, the web interface, generated code, settings tables and configuration files: nothing in them is hard to prove.
