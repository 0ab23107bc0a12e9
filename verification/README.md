# Clowder backend: releases, folders, roles, versions, imports and jobs

A Dafny model of the parts of the Clowder 2 backend in which several collections have to stay
consistent with each other, and proofs of what stays true whatever order the routes are called in.

- A *working dataset* has folders (a forest), files, metadata, visualization configs and data.
  Freezing it copies all records into the `*_freeze` collections as a numbered *release*; the bytes
  of the files are not copied but shared, and go only when the last record that needs them goes.
- *Authorization records* give users and groups a role on a dataset. `user_ids` is a list used as a
  multiset: a user stands in it once for a direct grant and once for every membership in an
  assigned group. The search index of a file repeats the users of all records of its dataset.
- A zip upload becomes a nested dictionary of directories, then folders, then files in them.
- An extraction job follows the status messages of its extractor.

How it is built. Collections are maps from id to record; ids come from one counter and are never
issued twice; the object store is the set of keys present. Every route is one atomic step. The
effect of a route is a function on the whole state (`State`, `Roles`); the routes themselves are
methods of the classes `Database.Store`, `AccessControl.Registry`, `ZipImport.Importer`,
`Visualizations.Visuals` and `Jobs.Listener`, with the loops, recursions and field updates the code
has, and each is proved to have that effect. What the effects are is told a second time in `Effects` and
`RoleEffects`, for every state and every argument, from the collections before and after a route and not
through those functions: which records come and go, what they say, which status is answered, and that
nothing else changes. `Lives` follows files, versions and releases over runs on that ground. The answer of a `find_one` with several matches is any
of them; the order of an unsorted `find` is any order.

What the routes keep is proved on the effects, for one step and for runs of any length (`Runs`,
`Histories`, `Attachments`, `RoleRuns`, `JointRuns`). A `Run` calls routes with any arguments; a route is
`Defined` where its recursion ends: a folder deletion must not come back, down the child queries, to the
folder it started from, and the walks up from the folders of the dataset to freeze must end. Cycles and
dangling parents elsewhere do not matter, and a freeze that meets a dangling parent is a step that ends
with an exception. Every run keeps `Orderly`: ids are never shared, frozen records belong to releases,
files that share bytes agree, version histories are complete, release numbers have no gaps. Object keys
are exactly the needed ones over every `SparingRun`, in which the update of a file and the unconditional
file deletion meet their conditions and nothing else has to. The full invariant `Inv` (also a closed
forest in which nothing crosses datasets) is kept by the runs that are `Careful`, which are sparing too
(`Runs.CarefulIsSparing`); the condition on each route is shown to be exact in module `Steps`.
`JointRuns` carries the records and the roles through one run. Lemmas whose names end in `Iff` give the
exact condition under which the code does what is wanted of it, and modules `Departures` and
`RoleDepartures` meet the failing side of each in a state that a careful run from the empty database
reaches, at most one route before, or that satisfies the role invariant.

Where the code departs from its intent it is modelled as written. With the lemma at a failing input:

- The loop that freezes folders does not look at the map of folders already frozen
  (`backend/app/db/dataset/version.py:112-113`), so a folder listed after one of its descendants is
  frozen twice (`FolderFreeze.ChildFirstFreezesParentTwice`). The copy is always faithful; it is
  one-to-one exactly when parents are listed first.
- `patch_folder` does not look for cycles or for the dataset of the new parent
  (`Departures.MoveMakesACycle`), `add_folder` and the uploads not for the dataset of the folder
  (`backend/app/routers/datasets.py:685-691, 913-924`; `Departures.ParentInAnotherDataset`,
  `Departures.UploadIntoAnotherDataset`).
- A file in a folder of another dataset is frozen with that working folder, because the map of frozen
  folders does not have it (`backend/app/db/dataset/version.py:123-125`; `Departures.FrozenFileKeepsItsFolder`).
- `delete_folder` looks for child folders in the dataset of the route only
  (`backend/app/routers/datasets.py:849-878`): called with another dataset it orphans children
  (`Departures.DeletionLeavesAnOrphan`). A freeze of their dataset then raises an exception after the
  release record has been inserted (`backend/app/db/folder/version.py:34-40`;
  `Departures.FreezeBreaksOff`).
- `delete_folder` removes the version records of a file whose bytes a release still needs
  (`backend/app/db/dataset/version.py:488-505`). The release keeps its bytes, but a download of the
  version it pinned is answered with 404 from then on (`Departures.PinnedVersionIsLost`).
- `remove_file_entry` of the file router takes the bytes even if a release shares them
  (`backend/app/routers/files.py:180-195`; `Departures.DeletionTakesReleasedBytes`); the one of
  `db/dataset/version.py` does not.
- A new version of a *local* file puts bytes into the object store that nothing accounts for
  (`backend/app/routers/files.py:213-273`; `Departures.UpdateLeaksBytes`).
- A version of a file may be described twice under one definition by one writer, for two reasons: the
  query for older metadata finds one entry of several (`backend/app/routers/metadata_files.py:121-146`;
  `Departures.SameVersionDescribedTwice`), and the version compared with that entry is the one sent, while
  a version of 0 or less is stored as the current one (`backend/app/routers/metadata_files.py:46-66`;
  `Departures.NoVersionDescribesTwice`).
- The removal of visualizations returns from inside its loop, so all configs of a resource but one
  stay; the frozen one keeps bytes while there is any other working data and takes them when there is
  none, the working datum itself included (`backend/app/db/dataset/version.py:223-266`;
  `Visualizations.FrozenRemovalTakesWorkingBytes`, `Visualizations.FrozenRemovalLeaksBytes`). For local
  files the removal is called without a store, although the bytes of their visualizations are in it
  (`backend/app/db/dataset/version.py:592-600`; `Visualizations.RemovalWithoutStoreLeaksBytes`).
- Read-only members of a group are put into a second record
  (`backend/app/routers/authorization.py:200-226`; `RoleDepartures.ReadOnlyMemberSplitsTheGroup`), and a
  group with nobody to put into the new record makes the route fail after that
  (`RoleDepartures.GrantFailsHalfway`).
- `remove_dataset_user_role` may take an occurrence that came from a group
  (`backend/app/routers/authorization.py:411`; `RoleDepartures.RemovalConsumesAMembership`).
- The search entry of a dataset is written from the one record a route touched, that of a new dataset from
  its creator whom no record names (`backend/app/routers/authorization.py:206-267, 321-337, 375-415`;
  `backend/app/routers/datasets.py:209-217`; `RoleDepartures.GrantForgetsTheOthers`,
  `DatasetEntries.CreationEntryDisagrees`).
- A read-only user who is to get more than a viewer role has lost the old role when the 405 is raised
  (`backend/app/routers/authorization.py:296-304`; `RoleDepartures.RefusalStrips`,
  `RoleDepartures.RefusalConsumesAMembership`).
- The recursive `path_parts_to_dict` drops the flag that tells a directory entry from a file, so a
  nested directory entry brings in only what is above it; a top-level directory entry always starts
  its directory over, because the check before it uses the name with its separator
  (`backend/app/routers/datasets.py:102-138`; `ZipListing.LateTopEntryForgets`). Directories are made
  under normalised names but looked up by the name in the entry
  (`backend/app/routers/datasets.py:140, 1146-1150`; `ZipListing.DottedEntryMissesItsFolder`).
- A message the parser does not recognise is an exception, because the last branch returns a bare
  status (`backend/message_listener.py:82-85`; `Jobs.UnrecognisedMessage`); a second start leaves the
  duration as of the first (`Jobs.SecondStartLeavesTheDuration`).

## Model

| member | source | states |
|---|---|---|
| Forest.AcyclicIffEveryWalkEnds | backend/app/routers/folders.py:17-31 | a folder collection has a rank that falls from child to parent exactly when the walk up from every folder ends |
| Forest.AboveAcyclicIff | backend/app/db/folder/version.py:7-31 | the folders above some roots form a forest exactly when the walk up from every root ends, whatever the rest of the collection |
| Forest.ConeAnswers | backend/app/routers/datasets.py:849-878 | a recursion down the child queries that does not come back to the folder it started from moves in a forest and reaches exactly the subtree of that folder in it, whatever the rest of the collection |
| Forest.AddingKeepsAcyclic | backend/app/routers/datasets.py:685-697 | a new folder below an existing one, or at the root, never makes a cycle or a dangling parent |
| Forest.MoveKeepsAcyclicIff | backend/app/routers/datasets.py:913-929 | moving a folder below another keeps the forest acyclic exactly when the other is not the folder itself or a descendant |
| Forest.RemovingSubtrees | backend/app/routers/datasets.py:849-878 | removing a set closed under children leaves a closed acyclic forest with the same chains and the same subtrees less the removed folders |
| Paths.DownloadFolder | backend/app/routers/folders.py:10-33 | where the walk up from the folder ends: the loop that inserts at the front returns its folders from the top down, names and ids, or 404; the rest of the collection does not matter |
| Paths.WayUpInForest | backend/app/routers/folders.py:17-31 | in a forest that is the chain of all its ancestors |
| Paths.HierarchySpellsNames | backend/app/db/folder/hierarchy.py:7-18 | the recursive export path is the concatenation of the separator-terminated names of the path route from the last absolute name on, followed by what was passed in |
| Paths.HierarchySpellsAllNamesIff | backend/app/db/folder/hierarchy.py:12-18 | it spells all names of the path route exactly when only empty names stand before the last absolute one |
| Paths.HierarchyFailsIff | backend/app/db/folder/hierarchy.py:12-17 | it fails exactly when the walk meets a folder that does not exist |
| FolderFreeze.FreezeFolderIsFaithful | backend/app/db/folder/version.py:7-51 | one call of the memoised recursion keeps every copy faithful (name, parent's copy in the same release, made earlier), keeps old records, and remembers exactly the folder and its ancestors in addition |
| FolderFreeze.FreezeFolderCounts | backend/app/db/folder/version.py:28-49 | it makes one copy of the folder and one of every ancestor not remembered, and no other |
| FolderFreeze.FreezeListedIsFaithful | backend/app/db/dataset/version.py:110-113 | for every order of the listing the copies are a homomorphism and old frozen folders are untouched |
| FolderFreeze.FreezeListedReaches | backend/app/db/dataset/version.py:110-113 | exactly the listed folders and their ancestors have a copy afterwards |
| FolderFreeze.FreezeListedCounts | backend/app/db/dataset/version.py:110-113 | the number of copies of any folder: one if it is listed, plus one if a strict descendant stands before it |
| FolderFreeze.OneCopyEachIffParentsFirst | backend/app/db/dataset/version.py:110-113 | every listed folder has exactly one copy exactly when parents are listed before their children |
| FolderFreeze.AllRootedIffClosed | backend/app/db/dataset/version.py:110-113 | the loop goes through exactly when no folder it reaches names a parent that is gone: the walk up from every folder of the dataset ends at a root |
| FolderFreeze.ChildFirstFreezesParentTwice | backend/app/db/dataset/version.py:112-113 | the listing [child, parent] leaves two copies of the parent |
| FolderFreeze.CopyHasTheNamesOfItsOrigin | backend/app/db/folder/version.py:28-49 | the names from the root to a copy are those from the root to its origin, however many copies there are |
| Nested.DeepUpdate | backend/app/models/metadata.py:330-337 | the recursive loop returns the field-by-field update, and fails exactly when the patch descends into something that is not a dictionary |
| Nested.AcceptsIff | backend/app/models/metadata.py:330-337 | a patch fails exactly when it descends into a leaf of the original |
| Nested.UpdateReadsPatchElseOriginal | backend/app/models/metadata.py:330-337 | every path reads the patch where the patch has a leaf on the way and the original everywhere else |
| Nested.UpdateTwiceIsOnce | backend/app/models/metadata.py:330-337 | repeating a patch is accepted and changes nothing |
| Nested.UpdatesCompose | backend/app/models/metadata.py:330-337 | two patches in sequence are one patch by their merge |
| Database.Store.StoreFile | backend/app/routers/files.py:83-147 | the record is inserted first and completed after the bytes are put: version 1, its version record, its key |
| Database.Store.DeleteFile | backend/app/routers/files.py:180-211 | whole new state and answer of the unconditional removal, stored and local |
| Database.Store.DownloadFile | backend/app/routers/files.py:306-344 | the answer, over every state: the path of a local file; else the object of the origin if there is one, at the version of a matching record, 404 if a version is asked for that no record has |
| Database.Store.PatchMetadata | backend/app/models/metadata.py:330-362 | the stored contents become the recursive update of the old ones; nothing is saved when the update or the validation after it fails |
| Database.Store.RemoveFileEntry | backend/app/db/dataset/version.py:473-511 | file, versions and metadata go; the bytes go unless a frozen copy has this origin |
| Database.Store.DeleteFolder | backend/app/routers/datasets.py:841-881 | the `while` over child folders and its recursion, wherever it ends, whatever datasets the folders are in and whatever cycles there are elsewhere: exactly the folder and what child queries within the dataset of the route reach from it go, with their files |
| Database.Store.RemoveFrozenFileEntry | backend/app/db/dataset/version.py:514-545 | the frozen file and its metadata go; the bytes go only if no other frozen file has that origin and the working file is gone |
| Database.Store.DropRelease | backend/app/db/dataset/version.py:420-461 | the loop over the frozen files removes documents, folders, files, authorizations of one release and exactly the bytes that lose their last reference |
| Database.Store.DeleteVersion | backend/app/routers/datasets.py:651-674 | a release with that number is emptied and marked deleted; 404 and no change when there is none |
| Database.Store.GetVersion | backend/app/routers/datasets.py:619-648 | a release of that number, or 404 if there is none or it is marked deleted |
| Database.Store.DeleteDataset | backend/app/routers/datasets.py:430-483 | the loops over releases and files have the effect of removing all of it at once |
| Removals.DropFrozenFilesCompose | backend/app/db/dataset/version.py:514-545 | reference counting one file after the other takes the same bytes as removing all at once, in any grouping |
| Database.Store.FreezeFolder | backend/app/db/folder/version.py:7-51 | the recursion on the collections is the specified one, map included |
| Copying.CopyDocs | backend/app/db/dataset/version.py:144-165 | the loop gives every document of the source exactly one copy with the new owner and the origin, and adds nothing else |
| Database.Store.FreezeResource | backend/app/db/dataset/version.py:25-97 | metadata, configs and, below each copied config, data are copied one to one |
| Database.Store.FreezeFile | backend/app/db/dataset/version.py:115-139 | one more file has a faithful copy with its documents; its folder is replaced by the copy the map has of it, and kept if it has none |
| Database.Store.NextNumber | backend/app/routers/datasets.py:499-516 | one more than the highest number of any release of the dataset, soft-deleted ones included, 1 if there is none |
| Database.Store.Freeze | backend/app/routers/datasets.py:486-551 | of any dataset from whose folders the walks up end, even one that refers into another: nothing old changes; if no parent is missing the new release has a copy of every folder, file and document, origins cover the dataset and the folders above it, parents of copies are copies of the parents in the release, a file goes with its folder where that has a copy and keeps the working folder where it has none, and the folders are those of the loop over some listing; if a parent is missing the answer is 500, with the release record, the dataset's documents and the copies of some listing up to the first folder below the missing parent there, no file and no authorization |
| Effects.CreateDatasetMakes | backend/app/routers/datasets.py:189-219 | one dataset under a new id and one owner record that names nobody; nothing else changes |
| Effects.AddFolderMakes | backend/app/routers/datasets.py:677-704 | one folder with the name, dataset and parent asked for, or 404 or 400 and no change, each exactly when |
| Effects.PatchFolderSets | backend/app/routers/datasets.py:904-931 | only that folder changes: a name if one is given, a parent if one is given that exists; its dataset stays |
| Effects.UploadMakes | backend/app/routers/files.py:83-147 | one file as version 1, one version record with its id, its bytes under its own id, and nothing else |
| Effects.UploadLocalMakes | backend/app/routers/files.py:150-177 | one file without version and bytes; the status of each refusal, exactly when |
| Effects.UpdateFileSets | backend/app/routers/files.py:213-273 | only number and version id of the file change, one version record carries both; the status of each refusal, exactly when |
| Effects.AddMetadataMakes | backend/app/routers/metadata_datasets.py:84-125 | one entry as sent; 409 exactly when the writer has the definition in use on the dataset |
| Effects.AddFileMetadataMakes | backend/app/routers/metadata_files.py:34-162 | one entry as sent under the version asked for if positive, else the current one; the status of each refusal, exactly when; 404 for a file that is not there (`Effects.MissingFileTakesNoMetadata`) |
| Effects.PatchMetadataSets | backend/app/models/metadata.py:339-362 | only the contents of the entry change, and every path of them reads the patch or the old contents |
| Effects.DeleteFileTakes | backend/app/routers/files.py:180-211 | the file and the metadata of anything with its id go, and of a stored one its version records and its key; nothing else |
| Effects.DeleteFolderTakes | backend/app/routers/datasets.py:841-881 | exactly the folder and the folders below it by parent links of folders of the dataset of the route go, exactly the files in them, and exactly their version records, their metadata and those of their keys no frozen file shares; a file in no folder or in another one is left as it is |
| Effects.DeleteVersionTakes | backend/app/db/dataset/version.py:420-470 | the release is emptied, loses its roles and is marked, under its old name, dataset and number; no other release record changes, and exactly the keys only it needed go |
| Effects.DeleteDatasetTakes | backend/app/routers/datasets.py:430-483 | exactly the records of the dataset and of its releases go, whatever the state, and exactly the keys only those needed |
| Effects.FreezeMakes | backend/app/db/dataset/version.py:25-139 | a reader of the new release finds the name, the number, one owner record, the dataset's folders under their names and in their places, each file once with its name, type, storage and version and in its place, and each document of dataset and files once with what it says; everything there was is as before |
| Effects.BrokenFreezeMakes | backend/app/db/folder/version.py:34-40 | a freeze that meets a missing parent leaves the release record and the dataset's documents, no file and no owner record |
| Lives.StepFollows | backend/app/routers/files.py:83-273 | over all routes: a file goes exactly with the routes that take it, changes exactly with its updates, and its version records stay as long as it does |
| Lives.FileStaysIff | backend/app/routers/files.py:180-211 | over any run a file is there exactly when no route took it |
| Lives.FileCountsItsUpdates | backend/app/routers/files.py:250-272 | over any run a file keeps name, place and storage, and its version number counts its updates |
| Lives.DownloadOfVersionIff | backend/app/routers/files.py:326-341 | a download of a stored working file at a version is 404 exactly when the number is not between 1 and the current one; otherwise it reads the file's own key at the id of the one record with that number |
| Lives.DownloadOfNewest | backend/app/routers/files.py:306-344 | the other downloads: the path of a local file, the newest bytes without a version, those of the origin for a frozen file, 404 for what is nowhere |
| Lives.DownloadReadsTheUpdate | backend/app/routers/files.py:250-272 | over any run the number of a version reads the bytes the update that made it handed in, as long as the file is there |
| Lives.DownloadReadsTheUpload | backend/app/routers/files.py:83-147 | and number 1 the bytes uploaded, under the name, type, dataset and folder of the upload |
| Lives.ReleaseStepFollows | backend/app/db/dataset/version.py:462-470 | over all routes: a release record goes with its dataset, is marked when its version is deleted, and never changes otherwise; a new one is not marked |
| Lives.MarkedIffDeleted | backend/app/db/dataset/version.py:462-470 | over any run in which its dataset lives a release is marked exactly when it was before or a version deletion has hit it, and keeps name, dataset and number |
| Lives.ShownIffNotDeleted | backend/app/routers/datasets.py:629-648 | over any run the request for a release shows it exactly until its version is deleted, and is answered with 404 from then on |
| Lives.UnknownVersionIsNotShown | backend/app/routers/datasets.py:629-648 | what is shown is a release of that dataset and number; a number no release has is answered with 404 |
| Steps.CreateDatasetKeeps | backend/app/routers/datasets.py:189-219 | keeps the invariant |
| Steps.AddFolderKeepsIff | backend/app/routers/datasets.py:685-697 | never a cycle; the invariant is kept exactly when the parent lies in the named dataset |
| Steps.PatchFolderKeepsIff | backend/app/routers/datasets.py:913-929 | kept exactly when the new parent is in the folder's dataset and neither the folder nor a descendant |
| Steps.UploadKeepsIff | backend/app/routers/files.py:83-147 | kept exactly when the folder lies in the named dataset |
| Steps.UploadLocalKeepsIff | backend/app/routers/files.py:150-177 | the same for local files |
| Steps.UpdateFileKeepsIff | backend/app/routers/files.py:227-273 | of a file with its own name and content type: kept exactly when the file is kept in the object store, otherwise bytes are leaked |
| Steps.DeleteFileKeepsIff | backend/app/routers/files.py:180-211 | kept exactly when no frozen copy shares the bytes the file router takes |
| Steps.DropFilesBytes | backend/app/db/dataset/version.py:473-511 | after the reference-counting removal the keys present are exactly the keys still needed |
| Steps.DeleteFolderKeepsIff | backend/app/routers/datasets.py:849-878 | kept, with no folder missing its parent, exactly when the folder is in the named dataset or has no children |
| Steps.DropReleasesBytes | backend/app/db/dataset/version.py:514-545 | after deleting releases the keys present are exactly the keys still needed |
| Steps.SoftDeleteKeeps | backend/app/routers/datasets.py:651-674 | deleting a version keeps the invariant |
| ReleaseSteps.FreezeKeeps | backend/app/routers/datasets.py:486-551 | freezing keeps the invariant: references stay inside the release, bytes shared, versions pinned, numbers gapless |
| ReleaseSteps.FreezeKeepsOrder | backend/app/routers/datasets.py:486-551 | a freeze keeps ids apart, ownership, shared bytes in agreement, histories complete and numbers gapless for every dataset, also one that refers into another |
| ReleaseSteps.FilesStayInsideIff | backend/app/db/dataset/version.py:117-125 | every frozen file lies in a frozen folder, or in none, exactly when every file of the dataset lies in a folder the freeze reaches, or in none |
| ReleaseSteps.DeleteDatasetTakesItsKeys | backend/app/routers/datasets.py:437-480 | exactly the object keys of the dataset's files and of the origins of its releases' files go, and no other key |
| ReleaseSteps.DeleteDatasetIsComplete | backend/app/routers/datasets.py:437-480 | exactly the records of the dataset and of all its releases go, soft-deleted ones included; those of every other dataset stay |
| ReleaseSteps.DeleteDatasetKeeps | backend/app/routers/datasets.py:437-480 | keeps the invariant |
| Runs.StepKeeps | backend/app/routers/datasets.py:430-1104 | every route keeps the invariant under its exact condition |
| Runs.RunKeepsOrder | backend/app/db/dataset/version.py:369-545 | over every run, whatever the routes are called with, as long as their recursions end: ids never shared, frozen records in releases, files that share bytes of one dataset and storage, version histories complete, release numbers gapless |
| Runs.StepKeepsBytesIff | backend/app/routers/files.py:180-273 | any route keeps the object keys exactly the needed ones exactly when it is no update of a local file and no unconditional deletion of a file whose bytes a release shares, whatever the folders look like |
| Runs.RunKeepsBytes | backend/app/db/dataset/version.py:473-545 | over every run in which those two routes meet their conditions nothing needed is lost and nothing is leaked, foreign folders, cycles and orphans or not |
| Runs.RunKeeps | backend/app/db/dataset/version.py:369-545 | over every careful run: forest, closed references inside datasets, object keys exactly the live ones, gapless histories and numbers |
| Runs.ReachableStatesAreFine | backend/app/db/dataset/version.py:369-545 | in particular of every state reachable from the empty database |
| Runs.StepLeavesRelease | backend/app/routers/datasets.py:486-551 | a route, whatever it is called with as long as its recursion ends, that does not delete a release leaves its record, folders, files, metadata and visualizations as they are |
| Runs.RunLeavesRelease | backend/app/routers/datasets.py:486-551 | snapshot isolation over runs of any length with any arguments, further freezes, broken ones too, and deletions of other releases included |
| Runs.RunKeepsReleaseBytes | backend/app/db/dataset/version.py:514-545 | over every run in which the two file routes meet their conditions every stored file of the release keeps its key in the object store |
| Runs.RunKeepsExports | backend/app/routers/datasets.py:1255-1270 | over a careful run every file of the release also keeps its export path |
| Runs.FreezeKeepsExportPaths | backend/app/db/dataset/version.py:115-125 | a fresh release exports each file to the path of its origin in the working dataset, duplicate folder copies or not |
| Histories.ReleasesAreNumberedOneToN | backend/app/routers/datasets.py:499-516 | the releases of a dataset carry exactly the numbers 1 to their count |
| Histories.NextNumberCounts | backend/app/routers/datasets.py:499-516 | the next number is the count of releases plus one |
| Histories.NumberIsNeverReused | backend/app/db/dataset/version.py:462-469 | over every run in which the dataset lives, conditions met or not, a number stays with its release, soft-deleted or not, and is given to no other |
| Histories.PinnedVersionIsFoundIff | backend/app/routers/files.py:326-341 | the version number a frozen stored file carries finds a record exactly when the working file it was copied from is there; then one record only, the one current at the freeze |
| Histories.DownloadOfPinnedIff | backend/app/routers/files.py:306-344 | a download of that version reads the shared object at the version frozen while the working file is there, and is answered with 404 otherwise, although the object is still kept |
| Histories.RemovalLosesPinnedVersion | backend/app/db/dataset/version.py:488-505 | removing the working file the reference-counting way keeps the frozen file and its bytes and makes every download of its pinned version a 404 |
| Histories.PinnedVersionStaysIff | backend/app/routers/files.py:250-272 | after any run, conditions met or not and however many updates it has, the same: the version frozen exactly as long as the working file is there |
| Attachments.AddFileMetadataOnceIff | backend/app/routers/metadata_files.py:34-162 | the one entry added to a file carries the version sent if it is positive, which then is on record, else the current one; an entry for each file version, definition and writer stays the only one exactly when none of that writer and definition stands at the version the new one is stored under; no dataset entry is repeated |
| Attachments.StepKeepsMetadata | backend/app/routers/metadata_datasets.py:84-125 | every route, whatever it is called with, keeps metadata attached to what is there and one entry on a dataset for each definition and extractor, or user; the same on a version of a file exactly when it is no such repetition |
| Attachments.RunKeepsMetadata | backend/app/routers/metadata_datasets.py:84-125 | over every run: no metadata outlives its dataset or file, an entry of a file names a version on record, and a definition stands once on a dataset for each extractor and for each user's own entries |
| Attachments.RunKeepsFileEntries | backend/app/routers/metadata_files.py:121-146 | over every run in which no entry is added at a place taken, a definition stands once on each version of a file for each extractor and for each user |
| Visualizations.Visuals.DeleteVisualizations | backend/app/db/dataset/version.py:269-304 | one config and its data go, and, if the call has a store, the bytes of those data no frozen copy needs; everything else stays |
| Visualizations.Visuals.DeleteFrozenVisualizations | backend/app/db/dataset/version.py:223-266 | one frozen config and its data go, and, if the call has a store, the bytes of origins that lose their last copy where no other working data is |
| Visualizations.FrozenLeavesNoneIff | backend/app/db/dataset/version.py:233-266 | no config of the resource is left exactly when it had one at most |
| Visualizations.LeavesNoneIff | backend/app/db/dataset/version.py:279-304 | the same for a working resource |
| Visualizations.ClearedTakes | backend/app/db/dataset/version.py:269-304 | exactly one config, exactly the data below it and, with a store, exactly the bytes of those no frozen datum comes from |
| Visualizations.FrozenClearedTakes | backend/app/db/dataset/version.py:223-266 | exactly one frozen config, exactly the data below it and, with a store, exactly the bytes that only those came from where there is no other working datum |
| Visualizations.ConfigIsFound | backend/app/db/dataset/version.py:233-240 | the config taken is one with the id of the resource for its owner, of whatever collection, and none exactly if there is none |
| Visualizations.Visuals.DeleteReleaseVisualizations | backend/app/db/dataset/version.py:420-600 | the deletion of a release calls the removal once for the release, with the store, and once for each of its files, with the store exactly for stored ones |
| Visualizations.ReleaseLeavesNoneIff | backend/app/db/dataset/version.py:420-600 | after that no visualization of the release or its files is left exactly when each had one config at most |
| Visualizations.ClearedStaysExactIff | backend/app/db/dataset/version.py:285-302 | removing working visualizations keeps the bytes exactly those of working data and of origins of frozen data: with a store always, without one exactly when every datum has a frozen copy |
| Visualizations.FrozenClearedStaysExactIff | backend/app/db/dataset/version.py:241-264 | removing frozen ones does so exactly when each origin that loses its last copy is working data if and only if other working data is there, with a store; without one, exactly when each is working data |
| Visualizations.FrozenRemovalTakesWorkingBytes | backend/app/db/dataset/version.py:255-264 | a release removed: the bytes of the only working datum are lost |
| Visualizations.FrozenRemovalLeaksBytes | backend/app/db/dataset/version.py:255-264 | with other working data the bytes of a datum that is gone stay |
| Visualizations.RemovalWithoutStoreLeaksBytes | backend/app/db/dataset/version.py:592-600 | without a store the bytes of a datum that is gone stay although there is no other |
| AccessControl.Registry.IndexFile | backend/app/search/index.py:66-114 | the entry names the users of all records of the file's dataset, as often as they do |
| AccessControl.Registry.IndexDatasetFiles | backend/app/search/index.py:117-123 | the entries of exactly the dataset's files are written anew |
| RoleEffects.IndexedIffNamed | backend/app/search/index.py:66-114 | a user is in the entry of a file exactly if some record of its dataset names the user |
| RoleEffects.OneMoreRecordIndexed | backend/app/search/index.py:66-114 | one more record adds its users as often as it names them |
| RoleEffects.ReindexedIs | backend/app/search/index.py:117-123 | indexing the files of some datasets anew changes the entries of exactly those files |
| AccessControl.Registry.RemoveDatasetGroupRole | backend/app/routers/authorization.py:350-387 | whole new state and answer |
| AccessControl.Registry.SetDatasetGroupRole | backend/app/routers/authorization.py:177-276 | whole new state and answer, second record for read-only members and failing exit included |
| AccessControl.Registry.RemoveDatasetUserRole | backend/app/routers/authorization.py:390-423 | whole new state and answer |
| AccessControl.Registry.SetDatasetUserRole | backend/app/routers/authorization.py:279-347 | whole new state and answer, second append included |
| AccessControl.Registry.AddMember | backend/app/routers/groups.py:222-271 | whole new state and answer |
| AccessControl.Registry.RemoveMember | backend/app/routers/groups.py:274-318 | whole new state and answer |
| AccessControl.Registry.GroupOccurrences | backend/app/routers/authorization.py:310-314 | the nested counting loops count the memberships of one user in the groups listed, each group once |
| AccessControl.Registry.ListIndividually | backend/app/routers/authorization.py:455-463 | users named by the record other than exactly as often as its groups name them |
| AccessControl.Registry.GetDatasetRoles | backend/app/routers/authorization.py:426-467 | for every record of the dataset its role, the assigned groups there are and the users listed individually, or 404 |
| RoleSteps.RemoveGroupRoleKeeps | backend/app/routers/authorization.py:362-379 | the group's memberships go, all direct grants stay, and the group has no record on the dataset any more |
| RoleEffects.RemoveGroupRoleTakes | backend/app/routers/authorization.py:350-387 | the record found loses the group and one occurrence of each member, where there is one, and keeps dataset and role; nothing else changes |
| RoleSteps.GrantGroupKeepsIff | backend/app/routers/authorization.py:189-268 | the multiset bookkeeping and one record per group and dataset are kept exactly when no member is read-only, or all are and there is no record to join; direct grants stay |
| RoleSteps.GrantFailsIff | backend/app/routers/authorization.py:228-268 | a group grant ends with an exception exactly when there is no record of the role to join and no member who is not read-only; of a group with members the viewer record is there then |
| RoleEffects.GrantGroupPlaces | backend/app/routers/authorization.py:189-268 | for every group and both branches: each member who is not read-only is named once more in the record of the requested role that is returned, each read-only member in one new viewer record, there exactly if there are any; no other record changes and nobody else is named |
| RoleEffects.SetGroupRolePlaces | backend/app/routers/authorization.py:177-276 | the route leaves one record of the group and then grants so; 404 without a change exactly for a dataset or group that is not there |
| RoleEffects.EveryMemberPlaced | backend/app/routers/authorization.py:200-268 | so whoever is in the group has the role afterwards, read-only members that of a viewer |
| RoleSteps.AddMemberKeeps | backend/app/routers/groups.py:238-253 | the new member is counted once in every record of the group; all direct grants stay |
| RoleSteps.RemoveMemberKeeps | backend/app/routers/groups.py:283-302 | one occurrence goes from every record of the group; all direct grants stay |
| RoleEffects.AddMemberPlaces | backend/app/routers/groups.py:222-271 | the group gets one member, read-only as the user is and editor as asked; each of its records names the user once more and no other changes |
| RoleEffects.RemoveMemberTakes | backend/app/routers/groups.py:274-318 | the group loses one member like the last with that email; each of its records names the user once less and no other changes |
| RoleSteps.RemoveUserRoleKeepsIff | backend/app/routers/authorization.py:404-412 | the bookkeeping is kept exactly when the record hit holds a direct grant, which is what is consumed; no other record changes |
| RoleSteps.GrantUserGrantsOne | backend/app/routers/authorization.py:297-339 | a grant adds exactly one direct grant, of the user, in the record it returns, whatever the groups of the record; nothing else changes |
| RoleEffects.RemoveUserRoleTakes | backend/app/routers/authorization.py:390-423 | the record found names the user once less; nothing else changes |
| RoleEffects.GrantUserPlaces | backend/app/routers/authorization.py:299-339 | 405 exactly for a read-only user and more than a viewer role; else the record of the role gains the user once, or twice where its groups have the user once, or a new record of the role names nobody else |
| RoleEffects.SetUserRolePlaces | backend/app/routers/authorization.py:279-347 | the route takes one occurrence and then grants so, also where it refuses; 404 without a change exactly for a dataset or user that is not there |
| RoleSteps.SetUserRoleKeepsIff | backend/app/routers/authorization.py:296-339 | exact condition for the removal and grant together, for read-only users whose grant is refused after the removal too, and for the case where the second append makes up for a consumed membership |
| RoleSteps.SetUserRoleLeavesOne | backend/app/routers/authorization.py:296-334 | a user without group-derived entries and with at most one entry has exactly one on the dataset afterwards, under the requested role |
| RoleSteps.ListedIffDirect | backend/app/routers/authorization.py:438-463 | under the bookkeeping a registered user is listed individually for a record exactly if the record names the user more often than its groups do |
| RoleEffects.EveryoneIsListed | backend/app/routers/authorization.py:435-463 | the answer for a record has its role and exactly its groups that exist, and every registered user it names is in one of them or listed individually |
| RoleEffects.MembershipsAreSums | backend/app/routers/authorization.py:310-314 | the memberships counted are those in the groups listed taken together, each group once however often it is listed |
| RoleRuns.RunKeepsBooks | backend/app/models/authorization.py:31-34 | over every run that meets the exact conditions, datasets, releases and files coming and going in between, no record names anybody less often than its groups do, its groups exist and are listed once, and a group has one record per dataset |
| RoleRuns.RunStaysBalanced | backend/app/models/authorization.py:31-34 | over every such run each email stands in each record once per direct grant, in a ledger kept by the user routes alone (one entered at the record granted into, one struck at the record hit, none for records groups make), and once per membership in an assigned group |
| RoleRuns.GroupRunsKeepDirectGrants | backend/app/routers/groups.py:222-318 | over every such run of group routes each email stands in each record once per direct grant there was before the run, none for records made in it, and once per membership in a group assigned now |
| RoleRuns.ListedIffGranted | backend/app/routers/authorization.py:438-463 | where ledger and records balance the listing recovers the ledger: a registered user is listed individually for a record exactly if the ledger has a grant of that user there |
| RoleRuns.RunKeepsIndex | backend/app/search/index.py:66-123 | over every run, conditions met or not, every file's entry names exactly the users of all records of its dataset |
| DatasetEntries.RouteEntryAgreesIff | backend/app/routers/authorization.py:206-415 | whatever record a role or group route writes the search entry of a dataset from, the entry names exactly the users of all records exactly when every other record of the dataset names nobody |
| DatasetEntries.CreationEntryDisagrees | backend/app/routers/datasets.py:209-217 | the entry a new dataset gets never names exactly the users of its records |
| JointRuns.ShadowFollows | backend/app/routers/datasets.py:189-1104 | every route on datasets, folders, files and releases has an effect on the roles that the roles can take, after which both have the same datasets, releases, files and authorization records |
| JointRuns.JointRunStaysJoint | backend/app/search/index.py:66-123 | over every run of routes of both kinds, conditions met or not, records and roles stay in order and agree, as they do before the first dataset (`JointRuns.NothingYetIsJoint`), and every file is indexed under exactly the users its records name |
| JointRuns.JointRunKeepsBooks | backend/app/models/authorization.py:31-34 | over every such run whose role routes meet the exact conditions the multiset bookkeeping stands, whatever the routes on records do |
| ZipListing.NestedUpdate | backend/app/routers/datasets.py:111-124 | the update loop returns the merge of two trees |
| ZipListing.MergeHasBoth | backend/app/routers/datasets.py:111-124 | the merge has exactly the directories of either |
| ZipListing.DictHasProperPrefixes | backend/app/routers/datasets.py:102-109 | the dictionary of a path has exactly the proper prefixes of the path |
| ZipListing.DescribeZipContents | backend/app/routers/datasets.py:84-146 | the loop over any listing, entries normalised as `os.path.normpath` does, returns the specified tree |
| ZipListing.SkippedIff | backend/app/routers/datasets.py:126 | an entry is skipped exactly if it has `__MACOSX` somewhere in it or `.DS_Store` at its end |
| Directions.NormPathLeadsThere | backend/app/routers/datasets.py:131-140 | the normalised path, followed part by part, leads where the path leads, from wherever one starts |
| Directions.LeadingSlashesStay | backend/app/routers/datasets.py:131-140 | it is absolute exactly if the path is, with two separators in front exactly if the path has two |
| ZipListing.DescribedHasExactly | backend/app/routers/datasets.py:126-146 | a directory is in the tree exactly when some entry brings it in and no later entry starts its top directory over |
| ZipListing.LateTopEntryForgets | backend/app/routers/datasets.py:134-138 | for the listing `a/b/f`, `a/` the directory of the file is not in the tree |
| ZipListing.DottedEntryMissesItsFolder | backend/app/routers/datasets.py:140-146 | for the entry `a/./f` the directory made is `a` and the one asked for is `a/.` |
| ZipImport.Importer.CreateFolderStructure | backend/app/routers/datasets.py:149-186 | the recursion makes one folder per directory, under the folder of the directory above, enters it in the lookup, and changes nothing else |
| ZipImport.Importer.ImportFolders | backend/app/routers/datasets.py:1123-1138 | listing to folders and lookup |
| ZipImport.NoSharedFolder | backend/app/routers/datasets.py:149-186 | two directories have the same folder in the lookup only if they are one |
| ZipImport.NoOtherFolder | backend/app/routers/datasets.py:149-186 | every new folder is that of some directory of the tree |
| ZipImport.DirectoryHasItsFolder | backend/app/routers/datasets.py:149-186 | every directory has a new folder of the dataset in the lookup, whose path route names are the directory's |
| ZipImport.OldFoldersStay | backend/app/routers/datasets.py:149-186 | the folders there were are as before |
| ZipImport.FileFindsItsFolderIff | backend/app/routers/datasets.py:1142-1163 | for any entry: a folder is found exactly when the directory part of the entry, split or in one piece, is a directory some entry brings in and none throws away; it is that directory's folder |
| ZipImport.FileIsSpelledBackIff | backend/app/routers/datasets.py:1142-1163 | then export path plus base name is the entry exactly when one separator stands between directory and base name and the directory has no empty name, or the entry has no directory part |
| ZipImport.ZipRoundTrip | backend/app/routers/datasets.py:1142-1163 | where top-level directory entries come before what is in them, the export path and name of every file entry in normal form spell the entry, whatever the other entries are |
| Jobs.Listener.Callback | backend/message_listener.py:88-159 | whole new job record, log and answer; an unrecognised message changes nothing, an unknown job is answered with false |
| Jobs.StatusOfARun | backend/message_listener.py:118-128 | over every sequence of messages the status is the first terminal one received, else the last recognised one, else created |
| Jobs.TimesOfARun | backend/message_listener.py:129-151 | updated, started and finished are the times of the last recognised message, the last start and the last end |
| Jobs.LatestOfARun | backend/message_listener.py:118-151 | over every sequence of messages the latest message kept is the text of the last recognised one |
| Jobs.FinishedIffTerminal | backend/message_listener.py:118-151 | the status is terminal exactly when the finishing time is set |
| Jobs.DurationOfARun | backend/message_listener.py:129-151 | over every sequence of messages the duration spans from the last start before the last recognised message to that message |
| Jobs.DurationUpToDateIff | backend/message_listener.py:136-145 | after any run with a start, the duration is updated minus started exactly when the last recognised message is no start, is the first start, or repeats the time of the start before |
| Jobs.StatusIsReadBackIff | backend/message_listener.py:29-85 | a status spelled either way in front of a body is read back, with the body less further spellings, unless the body ends the way a start or an end is told apart without one; then another status is read |
| Jobs.SpellingsMean | backend/message_listener.py:29-85 | each of the twelve spellings in front of a body with neither ending is read as its status |
| Jobs.EndingsMean | backend/message_listener.py:29-85 | a message that ends with `Started processing.` is a start, one that ends with `Done processing.` an end unless it is spelled as a start |
| Jobs.SpellingIsTakenOff | backend/message_listener.py:37-80 | the spelling is removed, and the body comes back unchanged exactly when it contains neither spelling |
| Jobs.UnrecognisedIff | backend/message_listener.py:29-85 | a message is not parsed exactly when it begins with no spelling and has neither of the two endings, and exactly then it leaves every job as it is |
| Jobs.UnrecognisedMessage | backend/message_listener.py:82-85 | `hello` is such a message |
| Jobs.SecondStartLeavesTheDuration | backend/message_listener.py:136-145 | a job started at 0 and again at 5 has a duration of 5 and no time between start and update |
| Departures.MoveMakesACycle | backend/app/routers/datasets.py:913-929 | a reachable state in which moving a folder below its child makes a cycle |
| Departures.ParentInAnotherDataset | backend/app/routers/datasets.py:685-697 | a reachable state in which a folder is put below one of another dataset |
| Departures.UploadIntoAnotherDataset | backend/app/routers/datasets.py:939-988 | the same for a stored and a local file |
| Departures.FrozenFileKeepsItsFolder | backend/app/db/dataset/version.py:117-125 | frozen after that, the file of the release refers to the working folder |
| Departures.DeletionLeavesAnOrphan | backend/app/routers/datasets.py:849-878 | a reachable state in which a child loses its parent |
| Departures.FreezeBreaksOff | backend/app/db/folder/version.py:34-40 | the dataset of that child frozen: an exception that leaves the release record without an authorization |
| Departures.DeletionTakesReleasedBytes | backend/app/routers/files.py:180-195 | a reachable state in which the bytes of a release are taken |
| Departures.UpdateLeaksBytes | backend/app/routers/files.py:213-273 | a reachable state in which an update puts bytes no record accounts for |
| Departures.PinnedVersionIsLost | backend/app/db/dataset/version.py:488-505 | a reachable state in which `delete_folder` leaves a release with its bytes and without the version it pinned |
| Departures.SameVersionDescribedTwice | backend/app/routers/metadata_files.py:121-146 | a reachable state with an entry for each of two versions, where one possible answer of the query makes the second version get another |
| Departures.NoVersionDescribesTwice | backend/app/routers/metadata_files.py:46-66 | a reachable state with a single entry, which every request with a version of 0 or less repeats |
| RoleDepartures.ReadOnlyMemberSplitsTheGroup | backend/app/routers/authorization.py:200-226 | a sound state in which granting a group leaves it with two records |
| RoleDepartures.GrantFailsHalfway | backend/app/routers/authorization.py:200-268 | a sound state in which the grant is an error after its first insert |
| RoleDepartures.RemovalConsumesAMembership | backend/app/routers/authorization.py:404-412 | a sound state in which the removal takes the occurrence of a membership |
| RoleDepartures.RefusalStrips | backend/app/routers/authorization.py:296-304 | a sound state in which the refused user loses the old role |
| RoleDepartures.RefusalConsumesAMembership | backend/app/routers/authorization.py:296-304 | a sound state in which the refused request breaks the bookkeeping |
| RoleDepartures.GrantForgetsTheOthers | backend/app/routers/authorization.py:330-337 | a sound state in which a grant leaves the dataset with a search entry that lacks a user |

## Left out

- Mongo, Minio, RabbitMQ, Elasticsearch and Keycloak: collections are maps, calls always succeed, and routes do not interleave.
- Contents of files: only which keys are present and which version a lookup finds. A download of a release file without a version reads the newest bytes of the working file.
- Permission checks, tokens, admin flags, licences, file sizes, timestamps, creators of datasets and folders, and download counters. Content types are compared by the update and used for nothing else.
- Thumbnails, whose removal has the inverted test of the visualizations.
- The working metadata of folders and the removal of folders from the search index.
- Everything in a search entry but its users, which are compared as multisets, not in order; the metadata routes, which write the dataset's entry from all records. The last write of a dataset's entry is modelled by the record it is made from, not as a store of entries.
- The list of a dataset's releases and their latest number.
- `save_authorization`, `edit_group`, `delete_group`, `update_member`, and role names other than the four.
- Replacing, listing and deleting single metadata entries; `validate_definition` and the contexts of metadata.
- `_freeze_folders` (`backend/app/db/folder/version.py:54-67`), which returns after its first folder and is not used by the freeze.
- Bags, RO-Crates, pagination, feeds, heartbeats, JupyterHub and the frontend.
- Runs.RunKeeps: holds for runs in which every route meets the condition its `KeepsIff` lemma shows to be exact; outside it the invariant is broken by the named route. What holds over all runs is Runs.RunKeepsOrder, and over all runs that spare the bytes Runs.RunKeepsBytes.
- Runs.ReachableStatesAreFine: the same condition.
- Runs.RunKeepsExports: the same condition; for the key alone see Runs.RunKeepsReleaseBytes.
- Histories.PinnedVersionStaysIff: says at which version the shared object is read; after an unconditional file deletion the object itself may be gone.
- Database.Store.Freeze: where the walk up from a folder of the dataset does not end the code does not either; copies of thumbnails are left out.
- Database.Store.DeleteFolder: where the child queries come back to the folder the recursion of the code does not end.
- Database.Store.FreezeFile: the copy of the file's thumbnail is left out.
- Database.Store.RemoveFileEntry: visualizations are removed by Visualizations.Visuals and not here, thumbnails nowhere.
- Database.Store.RemoveFrozenFileEntry: the same for frozen files.
- Database.Store.DropRelease: the same for releases; the calls on visualizations it makes are composed by Visualizations.Visuals.DeleteReleaseVisualizations.
- Database.Store.DeleteVersion: the same.
- Database.Store.DeleteDataset: the same for datasets, and the licence.
- ReleaseSteps.DeleteDatasetIsComplete: visualizations and thumbnails are not among the records compared.
- Database.Store.PatchMetadata: the validation is a parameter that accepts or rejects the updated contents; its typecasts are left out.
- ZipListing.DescribeZipContents: no directory is called `__CLOWDER_FILE_LIST__`; the file lists in the dictionary are not modelled, they share one list and are never read.
- ZipImport.Importer.ImportFolders: the same, and the rest of `create_dataset_from_zip` (an unawaited save, extraction to disk) is not modelled; the upload of each file is `Database.Store.Upload`.
- Jobs.Listener.Callback: times are integers; a message that is not JSON or has no valid date is not modelled.
