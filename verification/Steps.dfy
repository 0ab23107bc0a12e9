/** Each route against the invariant: always kept, or kept exactly under a condition the caller can check. */
module Steps {
  import opened Types
  import opened Nested
  import opened Forest
  import opened State
  import opened Invariant

  ghost predicate PartOf<K(!new), T(!new)>(m: map<K, T>, whole: map<K, T>) {
    forall k :: k in m ==> k in whole && m[k] == whole[k]
  }

  /** `w'` has no record that `w` did not have. */
  ghost predicate Shrunk(w: World, w': World) {
    && w'.next == w.next
    && PartOf(w'.datasets, w.datasets) && PartOf(w'.releases, w.releases)
    && PartOf(w'.folders, w.folders) && PartOf(w'.frozenFolders, w.frozenFolders)
    && PartOf(w'.files, w.files) && PartOf(w'.frozenFiles, w.frozenFiles) && PartOf(w'.versions, w.versions)
    && PartOf(w'.metadata, w.metadata) && PartOf(w'.frozenMetadata, w.frozenMetadata)
    && PartOf(w'.frozenVisConfigs, w.frozenVisConfigs) && PartOf(w'.frozenVisData, w.frozenVisData)
    && PartOf(w'.auths, w.auths)
  }

  lemma ShrunkIds(w: World, w': World)
    requires IdsIssued(w) && Shrunk(w, w')
    ensures IdsIssued(w')
  {
  }

  lemma CreateDatasetKeeps(w: World, name: string)
    requires Inv(w)
    ensures Inv(CreateDataset(w, name).0)
  {
    CreateDatasetIds(w, name);
    NewDatasetFits(w, Dataset(name));
  }

  lemma CreateDatasetIds(w: World, name: string)
    requires IdsIssued(w)
    ensures IdsIssued(CreateDataset(w, name).0)
  {
  }

  lemma CreateDatasetKeepsOrder(w: World, name: string)
    requires Orderly(w)
    ensures Orderly(CreateDataset(w, name).0)
  {
    CreateDatasetIds(w, name);
    assert Numbered(w.datasets[w.next := Dataset(name)], w.releases);
  }

  predicate FolderThere(w: World, folder: Option<Id>) {
    folder.Some? ==> folder.value in w.folders
  }

  lemma StoreFileKeepsOrder(w: World, file: File)
    requires Orderly(w) && file.storage == Minio && file.versionNum == 1 && FolderThere(w, file.folder)
    ensures Orderly(StoreFile(w, file))
  {
    hide IdsApart, Owned, Numbered, Lineage, History;
    NewFileKeepsLineage(w, file);
    UploadHistory(w, file);
    StoreFileIds(w, file);
  }

  lemma InsertFileKeepsOrder(w: World, file: File)
    requires Orderly(w) && file.storage == Local && file.versionNum == 0 && FolderThere(w, file.folder)
    ensures Orderly(InsertFile(w, file))
  {
    hide IdsApart, Owned, Numbered, Lineage, History;
    NewFileKeepsLineage(w, file);
    LocalHistory(w, file);
    InsertFileIds(w, file);
  }

  lemma StoreVersionKeepsOrder(w: World, f: Id, versionId: string)
    requires Orderly(w) && f in w.files
    ensures Orderly(StoreVersion(w, f, versionId))
  {
    StoreVersionLineage(w, f, versionId);
    StoreVersionKeepsHistory(w, f, versionId);
    StoreVersionIds(w, f, versionId);
  }

  lemma DeleteFileKeepsOrder(w: World, f: Id)
    requires Orderly(w) && f in w.files
    ensures Orderly(DropUnconditionally(w, f))
  {
    DropIsRemoval(w, f);
    RemovedHistory(w, DropUnconditionally(w, f), f);
    RemovedElsewhere(w, DropUnconditionally(w, f), f);
  }

  lemma DropFilesKeepsOrder(w: World, doomed: set<Id>)
    requires Orderly(w)
    ensures Orderly(DropFiles(w, doomed))
  {
    var w' := DropFiles(w, doomed);
    DropFilesShrinks(w, doomed);
    ShrunkIds(w, w');
    DropFilesHistory(w, doomed);
    LineageKept(w, w'.releases, w'.files, w'.frozenFiles);
  }

  lemma DropFoldersKeepsOrder(w: World, doomed: set<Id>)
    requires Orderly(w)
    ensures Orderly(DropFolders(w, doomed))
  {
    var w1, w' := DropFiles(w, FilesIn(w.files, doomed)), DropFolders(w, doomed);
    DropFilesShrinks(w, FilesIn(w.files, doomed));
    ShrunkIds(w, w1);
    ShrunkIds(w1, w');
    DropFilesHistory(w, FilesIn(w.files, doomed));
    LineageKept(w, w'.releases, w'.files, w'.frozenFiles);
  }

  lemma SoftDeleteKeepsOrder(w: World, fd: Id)
    requires Orderly(w) && fd in w.releases
    ensures Orderly(SoftDelete(w, fd))
  {
    var w' := DropReleases(w, {fd});
    DropReleasesShrinks(w, {fd});
    ShrunkIds(w, w');
    LineageKept(w, w'.releases, w'.files, w'.frozenFiles);
    DropReleasesHistory(w, {fd});
    hide DropReleases, Shrunk, IdsIssued, Lineage, History;
    MarkKeepsOrder(w', fd);
  }

  lemma MarkKeepsOrder(w: World, fd: Id)
    requires Orderly(w) && fd in w.releases
    ensures Orderly(w.(releases := w.releases[fd := w.releases[fd].(deleted := true)]))
  {
    MarkKeepsNumbers(w, fd);
    MarkKeepsLineage(w, fd);
    MarkKeepsIds(w, fd);
  }

  lemma NewDatasetFits(w: World, dataset: Dataset)
    requires WorkingTree(w.datasets, w.folders, w.files) && Numbered(w.datasets, w.releases)
    ensures WorkingTree(w.datasets[w.next := dataset], w.folders, w.files)
    ensures Numbered(w.datasets[w.next := dataset], w.releases)
  {
  }

  predicate SameDatasetParent(w: World, d: Id, parent: Option<Id>) {
    parent.Some? && parent.value in w.folders ==> w.folders[parent.value].dataset == d
  }

  /** Adding a folder never makes a cycle; it keeps the whole invariant exactly when the parent, if
      it exists, lies in the named dataset. */
  lemma AddFolderKeepsIff(w: World, d: Id, name: string, parent: Option<Id>)
    requires Inv(w) && d in w.datasets
    ensures Acyclic(AddFolder(w, d, name, parent).0.folders) && Closed(AddFolder(w, d, name, parent).0.folders)
    ensures Inv(AddFolder(w, d, name, parent).0) <==> SameDatasetParent(w, d, parent)
  {
    var (w', r) := AddFolder(w, d, name, parent);
    if r.Ok? {
      NewFolderInTree(w, Folder(name, d, parent, None));
      AddFolderIds(w, d, name, parent);
    }
  }

  lemma AddFolderIds(w: World, d: Id, name: string, parent: Option<Id>)
    requires IdsIssued(w)
    ensures IdsIssued(AddFolder(w, d, name, parent).0)
  {
    hide IdsIssued;
    InsertFolderIds(w, Folder(name, d, parent, None));
  }

  lemma InsertFolderIds(w: World, folder: Folder)
    requires IdsIssued(w)
    ensures IdsIssued(InsertFolder(w, folder))
  {
  }

  lemma NewFolderInTree(w: World, folder: Folder)
    requires WorkingTree(w.datasets, w.folders, w.files) && Issued(w.folders, w.next)
    requires folder.dataset in w.datasets && (folder.parent.Some? ==> folder.parent.value in w.folders)
    ensures Acyclic(w.folders[w.next := folder]) && Closed(w.folders[w.next := folder])
    ensures WorkingTree(w.datasets, w.folders[w.next := folder], w.files) <==>
            SameDatasetParent(w, folder.dataset, folder.parent)
  {
    var folders := w.folders[w.next := folder];
    AddingKeepsAcyclic(w.folders, w.next, folder);
    assert forall f :: HasParent(folders, f) ==> f == w.next || HasParent(w.folders, f);
    assert folder.parent.Some? ==> HasParent(folders, w.next);
  }

  /** The folder may go under `parent`: in its own dataset, and not below itself. */
  ghost predicate MayMove(w: World, f: Id, parent: Option<Id>)
    requires Acyclic(w.folders) && f in w.folders
  {
    parent.Some? && parent.value in w.folders ==>
      w.folders[parent.value].dataset == w.folders[f].dataset && !Under(w.folders, parent.value, f)
  }

  lemma RenameKeepsShape(fs: Folders, f: Id, name: string)
    requires Acyclic(fs) && f in fs
    ensures Acyclic(fs[f := fs[f].(name := name)])
    ensures forall x, y :: Under(fs[f := fs[f].(name := name)], x, y) <==> Under(fs, x, y)
  {
    var gs := fs[f := fs[f].(name := name)];
    assert forall x :: HasParent(gs, x) ==> HasParent(fs, x) && ParentOf(gs, x) == ParentOf(fs, x);
    assert Ranked(gs, RankOf(fs));
    forall x | x in fs ensures Chain(fs, x) == Chain(gs, x) {
      ChainsAgree(fs, gs, fs.Keys, x);
    }
  }

  /** Patching a folder keeps the invariant exactly when the requested parent is in the folder's
      dataset and is neither the folder nor a descendant. */
  lemma PatchFolderKeepsIff(w: World, d: Id, f: Id, name: Option<string>, parent: Option<Id>)
    requires Inv(w) && d in w.datasets && f in w.folders
    ensures Inv(PatchFolder(w, d, f, name, parent).0) <==> MayMove(w, f, parent)
  {
    PatchedTree(w, d, f, name, parent);
    PatchFolderIds(w, d, f, name, parent);
  }

  lemma PatchFolderIds(w: World, d: Id, f: Id, name: Option<string>, parent: Option<Id>)
    requires IdsIssued(w)
    ensures IdsIssued(PatchFolder(w, d, f, name, parent).0)
  {
  }

  function Renamed(folders: Folders, f: Id, name: Option<string>): Folders
    requires f in folders
  {
    if name.Some? then folders[f := folders[f].(name := name.value)] else folders
  }

  /** A patch renames, then moves. */
  lemma PatchedFolders(folders: Folders, f: Id, name: Option<string>, parent: Option<Id>)
    requires f in folders
    ensures folders[f := Patched(folders, f, name, parent)] ==
            if parent.Some? && parent.value in folders then Moved(Renamed(folders, f, name), f, parent.value)
            else Renamed(folders, f, name)
  {
  }

  lemma PatchedTree(w: World, d: Id, f: Id, name: Option<string>, parent: Option<Id>)
    requires WorkingTree(w.datasets, w.folders, w.files) && d in w.datasets && f in w.folders
    ensures WorkingTree(w.datasets, PatchFolder(w, d, f, name, parent).0.folders, w.files) <==> MayMove(w, f, parent)
  {
    assert PatchFolder(w, d, f, name, parent).0.folders == w.folders[f := Patched(w.folders, f, name, parent)];
    PatchedFolders(w.folders, f, name, parent);
    RenamedShape(w.datasets, w.folders, w.files, f, name);
    hide WorkingTree, Under, Patched, Moved, Renamed, PatchFolder;
    if parent.Some? && parent.value in w.folders {
      RenamedUnder(w.folders, f, name, parent.value);
      MovedTree(w.datasets, Renamed(w.folders, f, name), w.files, f, parent.value);
    }
  }

  lemma RenamedShape(datasets: map<Id, Dataset>, folders: Folders, files: map<Id, File>, f: Id, name: Option<string>)
    requires WorkingTree(datasets, folders, files) && f in folders
    ensures WorkingTree(datasets, Renamed(folders, f, name), files)
    ensures Acyclic(folders) && Acyclic(Renamed(folders, f, name))
  {
    if name.Some? {
      RenamedTree(datasets, folders, files, f, name.value);
    }
  }

  lemma RenamedUnder(folders: Folders, f: Id, name: Option<string>, p: Id)
    requires f in folders && p in folders && Acyclic(folders) && Acyclic(Renamed(folders, f, name))
    ensures f in Renamed(folders, f, name) && p in Renamed(folders, f, name)
    ensures Renamed(folders, f, name)[f].dataset == folders[f].dataset
    ensures Renamed(folders, f, name)[p].dataset == folders[p].dataset
    ensures Under(Renamed(folders, f, name), p, f) <==> Under(folders, p, f)
  {
    if name.Some? {
      RenameKeepsShape(folders, f, name.value);
    }
  }

  lemma RenamedTree(datasets: map<Id, Dataset>, folders: Folders, files: map<Id, File>, f: Id, name: string)
    requires WorkingTree(datasets, folders, files) && f in folders
    ensures WorkingTree(datasets, folders[f := folders[f].(name := name)], files)
  {
    RenameKeepsShape(folders, f, name);
    var gs := folders[f := folders[f].(name := name)];
    assert forall x :: HasParent(gs, x) <==> HasParent(folders, x);
  }

  lemma MovedTree(datasets: map<Id, Dataset>, fs: Folders, files: map<Id, File>, f: Id, p: Id)
    requires WorkingTree(datasets, fs, files) && f in fs && p in fs
    ensures WorkingTree(datasets, Moved(fs, f, p), files) <==> fs[p].dataset == fs[f].dataset && !Under(fs, p, f)
  {
    MoveKeepsAcyclicIff(fs, f, p);
    var gs := Moved(fs, f, p);
    assert HasParent(gs, f);
    assert forall x :: HasParent(gs, x) ==> x == f || HasParent(fs, x);
  }

  /** A new file in its dataset, in a folder of that dataset or in none. */
  lemma NewFileInTree(w: World, file: File)
    requires WorkingTree(w.datasets, w.folders, w.files) && Issued(w.files, w.next)
    ensures WorkingTree(w.datasets, w.folders, w.files[w.next := file]) <==>
            file.dataset in w.datasets &&
            (file.folder.Some? ==> file.folder.value in w.folders && w.folders[file.folder.value].dataset == file.dataset)
  {
    var files := w.files[w.next := file];
    assert w.next in files && files[w.next] == file;
  }

  lemma NewFileKeepsLineage(w: World, file: File)
    requires IdsIssued(w) && Lineage(w.releases, w.files, w.frozenFiles)
    ensures Lineage(w.releases, w.files[w.next := file], w.frozenFiles)
  {
    var files := w.files[w.next := file];
    forall x, f | ShareWorking(files, w.frozenFiles, x, f) ensures ShareWorking(w.files, w.frozenFiles, x, f) {
      assert w.frozenFiles[x].origin.value < w.next;
    }
  }

  lemma NewFileBytes(w: World, file: File)
    requires IdsIssued(w) && BytesExact(w.files, w.frozenFiles, w.objects)
    ensures BytesExact(w.files[w.next := file], w.frozenFiles,
                       if file.storage == Minio then w.objects + {w.next} else w.objects)
  {
    assert LiveKeys(w.files[w.next := file], w.frozenFiles) ==
           LiveKeys(w.files, w.frozenFiles) + if file.storage == Minio then {w.next} else {};
  }

  /** A file's history depends on its own version records only. */
  lemma SameRecords(versions: map<Id, FileVersion>, versions': map<Id, FileVersion>, f: Id, file: File)
    requires Recorded(versions, f, file)
    requires forall v, num :: Records(versions, v, f, num) <==> Records(versions', v, f, num)
    requires forall v :: v in versions && v in versions' && versions[v].file == f ==> versions'[v] == versions[v]
    ensures Recorded(versions', f, file)
  {
    forall num | 1 <= num <= file.versionNum ensures HasRecord(versions', f, num) {
      assert HasRecord(versions, f, num);
      var v :| Records(versions, v, f, num);
      assert Records(versions', v, f, num);
    }
  }

  lemma NewFileKeepsPins(w: World, file: File, versions: map<Id, FileVersion>)
    requires IdsIssued(w) && History(w.files, w.frozenFiles, w.versions)
    requires forall v, f, num :: f != w.next ==> (Records(w.versions, v, f, num) <==> Records(versions, v, f, num))
    requires forall v :: v in w.versions ==> v in versions && versions[v] == w.versions[v]
    requires forall v :: v in versions && v !in w.versions ==> versions[v].file == w.next
    requires Recorded(versions, w.next, file)
    ensures History(w.files[w.next := file], w.frozenFiles, versions)
  {
    var files := w.files[w.next := file];
    forall x, v | OfOrigin(w.frozenFiles, versions, x, v) ensures versions[v].file in files {
      assert v in w.versions ==> OfOrigin(w.frozenFiles, w.versions, x, v);
    }
    forall f | f in files ensures Recorded(versions, f, files[f]) {
      if f != w.next {
        assert Recorded(w.versions, f, w.files[f]);
        SameRecords(w.versions, versions, f, w.files[f]);
      }
    }
    forall x, f | ShareWorking(files, w.frozenFiles, x, f) ensures Pinned(versions, f, files[f], w.frozenFiles[x]) {
      assert ShareWorking(w.files, w.frozenFiles, x, f);
    }
  }

  lemma UploadHistory(w: World, file: File)
    requires IdsIssued(w) && History(w.files, w.frozenFiles, w.versions) && file.storage == Minio && file.versionNum == 1
    ensures History(w.files[w.next := file], w.frozenFiles,
                    w.versions[w.next + 1 := FileVersion(w.next, file.versionId, 1)])
  {
    var versions := w.versions[w.next + 1 := FileVersion(w.next, file.versionId, 1)];
    assert Records(versions, w.next + 1, w.next, 1);
    NewFileKeepsPins(w, file, versions);
  }

  lemma LocalHistory(w: World, file: File)
    requires IdsIssued(w) && History(w.files, w.frozenFiles, w.versions) && file.storage == Local && file.versionNum == 0
    ensures History(w.files[w.next := file], w.frozenFiles, w.versions)
  {
    NewFileKeepsPins(w, file, w.versions);
  }

  lemma UploadKeepsIff(w: World, d: Id, name: string, contentType: string, folder: Option<Id>, versionId: string)
    requires Inv(w) && d in w.datasets
    ensures Inv(Upload(w, d, name, contentType, folder, versionId).0) <==> SameDatasetParent(w, d, folder)
  {
    if folder.Some? ==> folder.value in w.folders {
      StoreFileKeepsIff(w, File(name, contentType, d, folder, Minio, versionId, 1, None));
    }
  }

  lemma StoreFileKeepsIff(w: World, file: File)
    requires Inv(w) && file.storage == Minio && file.versionNum == 1 && FolderThere(w, file.folder)
    ensures Inv(StoreFile(w, file)) <==>
            file.dataset in w.datasets &&
            (file.folder.Some? ==> w.folders[file.folder.value].dataset == file.dataset)
  {
    hide IdsApart, ReleaseTree, BytesExact, Lineage, History, Numbered;
    NewFileInTree(w, file);
    NewFileKeepsLineage(w, file);
    NewFileBytes(w, file);
    UploadHistory(w, file);
    StoreFileIds(w, file);
  }

  lemma StoreFileIds(w: World, file: File)
    requires IdsIssued(w) && FolderThere(w, file.folder)
    ensures IdsIssued(StoreFile(w, file))
  {
  }

  lemma UploadLocalKeepsIff(w: World, d: Id, name: string, contentType: string, folder: Option<Id>)
    requires Inv(w) && d in w.datasets
    ensures Inv(UploadLocal(w, d, name, contentType, folder, true).0) <==> SameDatasetParent(w, d, folder)
  {
    if folder.Some? ==> folder.value in w.folders {
      InsertFileKeepsIff(w, File(name, contentType, d, folder, Local, "N/A", 0, None));
    }
  }

  lemma InsertFileKeepsIff(w: World, file: File)
    requires Inv(w) && file.storage == Local && file.versionNum == 0 && FolderThere(w, file.folder)
    ensures Inv(InsertFile(w, file)) <==>
            file.dataset in w.datasets &&
            (file.folder.Some? ==> w.folders[file.folder.value].dataset == file.dataset)
  {
    hide IdsApart, ReleaseTree, BytesExact, Lineage, History, Numbered;
    NewFileInTree(w, file);
    NewFileKeepsLineage(w, file);
    NewFileBytes(w, file);
    LocalHistory(w, file);
    InsertFileIds(w, file);
  }

  lemma InsertFileIds(w: World, file: File)
    requires IdsIssued(w) && FolderThere(w, file.folder)
    ensures IdsIssued(InsertFile(w, file))
  {
  }

  /** A new version keeps the invariant exactly when the file is kept in the object store: updating
      a local file puts bytes nothing accounts for. */
  lemma UpdateFileKeepsIff(w: World, f: Id, versionId: string)
    requires Inv(w) && f in w.files
    ensures Inv(UpdateFile(w, f, w.files[f].name, w.files[f].contentType, versionId).0) <==> w.files[f].storage == Minio
  {
    StoreVersionKeepsIff(w, f, versionId);
  }

  lemma StoreVersionKeepsIff(w: World, f: Id, versionId: string)
    requires Inv(w) && f in w.files
    ensures Inv(StoreVersion(w, f, versionId)) <==> w.files[f].storage == Minio
  {
    hide IdsIssued, ReleaseTree, BytesExact, Lineage, History, Numbered;
    StoreVersionKeepsHistory(w, f, versionId);
    StoreVersionBytesIff(w, f, versionId);
    StoreVersionIds(w, f, versionId);
    StoreVersionTree(w, f, versionId);
  }

  lemma StoreVersionIds(w: World, f: Id, versionId: string)
    requires f in w.files && IdsIssued(w)
    ensures IdsIssued(StoreVersion(w, f, versionId))
  {
  }

  lemma StoreVersionTree(w: World, f: Id, versionId: string)
    requires f in w.files && WorkingTree(w.datasets, w.folders, w.files)
    ensures WorkingTree(w.datasets, w.folders, StoreVersion(w, f, versionId).files)
  {
  }

  /** Everything recorded under a live key is kept in the object store. */
  lemma LiveKeyIsMinio(releases: map<Id, Release>, files: map<Id, File>, frozenFiles: map<Id, File>, key: Id)
    requires Lineage(releases, files, frozenFiles) && key in LiveKeys(files, frozenFiles)
    ensures key in files ==> files[key].storage == Minio
    ensures forall x :: x in frozenFiles && frozenFiles[x].origin == Some(key) ==> frozenFiles[x].storage == Minio
  {
    if y :| y in frozenFiles && frozenFiles[y].storage == Minio && frozenFiles[y].origin == Some(key) {
      assert key in files ==> ShareWorking(files, frozenFiles, y, key);
      assert forall x :: x in frozenFiles && frozenFiles[x].origin == Some(key) ==> Share(frozenFiles, y, x);
    } else {
      assert forall x :: x in frozenFiles && frozenFiles[x].origin == Some(key) ==> ShareWorking(files, frozenFiles, x, key);
    }
  }

  lemma StoreVersionBytesIff(w: World, f: Id, versionId: string)
    requires f in w.files
    requires BytesExact(w.files, w.frozenFiles, w.objects) && Lineage(w.releases, w.files, w.frozenFiles)
    ensures var w' := StoreVersion(w, f, versionId);
            && Lineage(w'.releases, w'.files, w'.frozenFiles)
            && (BytesExact(w'.files, w'.frozenFiles, w'.objects) <==> w.files[f].storage == Minio)
  {
    var w' := StoreVersion(w, f, versionId);
    StoreVersionLineage(w, f, versionId);
    assert LiveKeys(w'.files, w'.frozenFiles) == LiveKeys(w.files, w.frozenFiles);
    assert f in w'.objects;
    if f in LiveKeys(w.files, w.frozenFiles) {
      LiveKeyIsMinio(w.releases, w.files, w.frozenFiles, f);
    }
  }

  lemma StoreVersionLineage(w: World, f: Id, versionId: string)
    requires f in w.files && Lineage(w.releases, w.files, w.frozenFiles)
    ensures Lineage(w.releases, StoreVersion(w, f, versionId).files, w.frozenFiles)
  {
    var files := StoreVersion(w, f, versionId).files;
    forall x, g | ShareWorking(files, w.frozenFiles, x, g) ensures ShareWorking(w.files, w.frozenFiles, x, g) {
    }
  }

  lemma StoreVersionKeepsHistory(w: World, f: Id, versionId: string)
    requires f in w.files && IdsIssued(w) && History(w.files, w.frozenFiles, w.versions)
    ensures var w' := StoreVersion(w, f, versionId); History(w'.files, w'.frozenFiles, w'.versions)
  {
    var w' := StoreVersion(w, f, versionId);
    assert forall v, g, n :: Records(w'.versions, v, g, n) <==>
                             Records(w.versions, v, g, n) || (v == w.next && g == f && n == w.files[f].versionNum + 1);
    StoreVersionKeepsPins(w, f, versionId);
    forall x, v | OfOrigin(w'.frozenFiles, w'.versions, x, v) ensures w'.versions[v].file in w'.files {
      assert v != w.next ==> OfOrigin(w.frozenFiles, w.versions, x, v);
    }
    assert w.next !in w.versions;
    hide Pinned, Recorded, IdsIssued, RecordsLeft;
    forall g | g in w'.files ensures Recorded(w'.versions, g, w'.files[g]) {
      assert Recorded(w.versions, g, w.files[g]);
      if g != f {
        SameRecords(w.versions, w'.versions, g, w.files[g]);
      } else {
        OneMoreRecord(w.versions, w.next, f, w.files[f], versionId);
      }
    }
  }

  lemma StoreVersionKeepsPins(w: World, f: Id, versionId: string)
    requires f in w.files && IdsIssued(w) && History(w.files, w.frozenFiles, w.versions)
    ensures var w' := StoreVersion(w, f, versionId);
            forall x, g {:trigger ShareWorking(w'.files, w'.frozenFiles, x, g)} ::
              ShareWorking(w'.files, w'.frozenFiles, x, g) ==>
                Pinned(w'.versions, g, w'.files[g], w'.frozenFiles[x])
  {
    var w' := StoreVersion(w, f, versionId);
    assert forall v, g, n :: Records(w'.versions, v, g, n) <==>
                             Records(w.versions, v, g, n) || (v == w.next && g == f && n == w.files[f].versionNum + 1);
    forall x, g | ShareWorking(w'.files, w'.frozenFiles, x, g)
      ensures Pinned(w'.versions, g, w'.files[g], w'.frozenFiles[x])
    {
      assert ShareWorking(w.files, w.frozenFiles, x, g);
    }
  }

  lemma OneMoreRecord(versions: map<Id, FileVersion>, v: Id, f: Id, file: File, versionId: string)
    requires Recorded(versions, f, file) && v !in versions
    ensures Recorded(versions[v := FileVersion(f, versionId, file.versionNum + 1)], f,
                     file.(versionId := versionId, versionNum := file.versionNum + 1))
  {
    var num := file.versionNum + 1;
    var more := versions[v := FileVersion(f, versionId, num)];
    assert forall u, n :: Records(more, u, f, n) <==> Records(versions, u, f, n) || (u == v && n == num);
    forall n | 1 <= n <= num ensures HasRecord(more, f, n) {
      if n == num {
        assert Records(more, v, f, n);
      } else {
        assert HasRecord(versions, f, n);
        var u :| Records(versions, u, f, n);
        assert Records(more, u, f, n);
      }
    }
  }

  /** The unconditional removal keeps the invariant exactly when no frozen copy shares the bytes it takes. */
  lemma DeleteFileKeepsIff(w: World, f: Id)
    requires Inv(w) && f in w.files
    ensures Inv(DeleteFile(w, f).0) <==> (w.files[f].storage == Minio ==> !HasFrozenCopy(w.frozenFiles, f))
  {
    DropIsRemoval(w, f);
    OneFileGone(w, DropUnconditionally(w, f), f);
  }

  /** File `f` is gone and so are its bytes; the version records of other files are still there. */
  ghost predicate Removed(w: World, w': World, f: Id)
    requires f in w.files
  {
    && Shrunk(w, w') && FrozenSame(w, w')
    && w'.datasets == w.datasets && w'.folders == w.folders && w'.files == w.files - {f}
    && (forall v :: v in w.versions && w.versions[v].file != f ==> v in w'.versions)
    && (w.files[f].storage == Minio ==> w'.objects == w.objects - {f} &&
                                        forall v :: v in w'.versions ==> w'.versions[v].file != f)
    && (w.files[f].storage == Local ==> w'.objects == w.objects)
  }

  lemma DropIsRemoval(w: World, f: Id)
    requires f in w.files
    ensures Removed(w, DropUnconditionally(w, f), f)
  {
    if w.files[f].storage == Local {
      LocalIsRemoval(w, f);
    } else {
      StoredIsRemoval(w, f);
    }
  }

  lemma LocalIsRemoval(w: World, f: Id)
    requires f in w.files && w.files[f].storage == Local
    ensures Removed(w, DropLocalFile(w, f), f)
  {
  }

  lemma StoredIsRemoval(w: World, f: Id)
    requires f in w.files && w.files[f].storage == Minio
    ensures Removed(w, DropStoredFile(w, f), f)
  {
  }

  lemma OneFileGone(w: World, w': World, f: Id)
    requires Inv(w) && f in w.files && Removed(w, w', f)
    ensures Inv(w') <==> (w.files[f].storage == Minio ==> !HasFrozenCopy(w.frozenFiles, f))
  {
    RemovedHistory(w, w', f);
    RemovedStrays(w, w', f);
    RemovedElsewhere(w, w', f);
    DeleteFileBytesIff(w, f);
  }

  lemma RemovedHistory(w: World, w': World, f: Id)
    requires f in w.files && Removed(w, w', f) && History(w.files, w.frozenFiles, w.versions)
    requires Lineage(w.releases, w.files, w.frozenFiles)
    ensures History(w'.files, w'.frozenFiles, w'.versions)
  {
    forall x, v | OfOrigin(w'.frozenFiles, w'.versions, x, v) ensures w'.versions[v].file in w'.files {
      assert OfOrigin(w.frozenFiles, w.versions, x, v);
      assert w.versions[v].file == f ==> ShareWorking(w.files, w.frozenFiles, x, f);
    }
    HistoryKept(w, w'.files, w'.frozenFiles, w'.versions);
  }

  lemma RemovedStrays(w: World, w': World, f: Id)
    requires f in w.files && Removed(w, w', f)
    requires History(w.files, w.frozenFiles, w.versions) && NoStrays(w.files, w.versions)
    ensures NoStrays(w'.files, w'.versions)
  {
    if w.files[f].storage == Local {
      LocalFileHasNoRecords(w, f);
    }
  }

  lemma RemovedElsewhere(w: World, w': World, f: Id)
    requires f in w.files && Removed(w, w', f) && IdsIssued(w) && Lineage(w.releases, w.files, w.frozenFiles)
    ensures IdsIssued(w') && Lineage(w'.releases, w'.files, w'.frozenFiles)
    ensures WorkingTree(w.datasets, w.folders, w.files) ==> WorkingTree(w'.datasets, w'.folders, w'.files)
  {
    ShrunkIds(w, w');
    LineageKept(w, w'.releases, w'.files, w'.frozenFiles);
    if WorkingTree(w.datasets, w.folders, w.files) {
      FewerFilesInTree(w, w'.files);
    }
  }

  lemma LocalFileHasNoRecords(w: World, f: Id)
    requires History(w.files, w.frozenFiles, w.versions) && NoStrays(w.files, w.versions)
    requires f in w.files && w.files[f].storage == Local
    ensures forall v :: v in w.versions ==> w.versions[v].file != f
  {
    assert Recorded(w.versions, f, w.files[f]);
    forall v | v in w.versions ensures w.versions[v].file != f {
      assert !Records(w.versions, v, f, w.versions[v].num);
    }
  }

  lemma FewerFilesInTree(w: World, files: map<Id, File>)
    requires WorkingTree(w.datasets, w.folders, w.files) && PartOf(files, w.files)
    ensures WorkingTree(w.datasets, w.folders, files)
  {
  }

  lemma DeleteFileBytesIff(w: World, f: Id)
    requires f in w.files
    requires BytesExact(w.files, w.frozenFiles, w.objects) && Lineage(w.releases, w.files, w.frozenFiles)
    ensures BytesExact(w.files - {f}, w.frozenFiles, if w.files[f].storage == Minio then w.objects - {f} else w.objects) <==>
            (w.files[f].storage == Minio ==> !HasFrozenCopy(w.frozenFiles, f))
  {
    if f in LiveKeys(w.files, w.frozenFiles) {
      LiveKeyIsMinio(w.releases, w.files, w.frozenFiles, f);
    }
    if w.files[f].storage == Minio && HasFrozenCopy(w.frozenFiles, f) {
      var x :| x in w.frozenFiles && w.frozenFiles[x].origin == Some(f);
      assert ShareWorking(w.files, w.frozenFiles, x, f);
      assert f in LiveKeys(w.files - {f}, w.frozenFiles);
    } else {
      assert LiveKeys(w.files - {f}, w.frozenFiles) == LiveKeys(w.files, w.frozenFiles) - {f};
    }
  }

  /** Fewer files, the version records of those that stay: the history is kept. */
  lemma HistoryKept(w: World, files: map<Id, File>, frozenFiles: map<Id, File>, versions: map<Id, FileVersion>)
    requires History(w.files, w.frozenFiles, w.versions)
    requires forall f :: f in files ==> f in w.files && files[f] == w.files[f]
    requires forall x :: x in frozenFiles ==> x in w.frozenFiles && frozenFiles[x] == w.frozenFiles[x]
    requires forall v :: v in versions ==> v in w.versions && versions[v] == w.versions[v]
    requires RecordsLeft(files, frozenFiles, versions)
    requires forall v :: v in w.versions && w.versions[v].file in files ==> v in versions
    ensures History(files, frozenFiles, versions)
  {
    forall f | f in files ensures Recorded(versions, f, files[f]) {
      assert Recorded(w.versions, f, w.files[f]);
      SameRecords(w.versions, versions, f, files[f]);
    }
    forall x, f | ShareWorking(files, frozenFiles, x, f) ensures Pinned(versions, f, files[f], frozenFiles[x]) {
      assert ShareWorking(w.files, w.frozenFiles, x, f);
      assert forall v, n :: Records(versions, v, f, n) ==> Records(w.versions, v, f, n);
    }
  }

  lemma LineageKept(w: World, releases: map<Id, Release>, files: map<Id, File>, frozenFiles: map<Id, File>)
    requires Lineage(w.releases, w.files, w.frozenFiles)
    requires forall f :: f in files ==> f in w.files && files[f] == w.files[f]
    requires forall x :: x in frozenFiles ==> x in w.frozenFiles && frozenFiles[x] == w.frozenFiles[x]
    requires forall x :: x in frozenFiles ==> SourceOf(releases, frozenFiles[x]) == SourceOf(w.releases, frozenFiles[x])
    ensures Lineage(releases, files, frozenFiles)
  {
    forall x, y | Share(frozenFiles, x, y)
      ensures frozenFiles[x].storage == frozenFiles[y].storage
      ensures SourceOf(releases, frozenFiles[x]) == SourceOf(releases, frozenFiles[y])
    {
      assert Share(w.frozenFiles, x, y);
    }
    forall x, f | ShareWorking(files, frozenFiles, x, f)
      ensures frozenFiles[x].storage == files[f].storage && SourceOf(releases, frozenFiles[x]) == Some(files[f].dataset)
    {
      assert ShareWorking(w.files, w.frozenFiles, x, f);
    }
  }

  lemma InsertMetadataKeeps(w: World, doc: Doc)
    requires Inv(w)
    ensures Inv(InsertMetadata(w, doc))
  {
    InsertMetadataIds(w, doc);
  }

  lemma InsertMetadataIds(w: World, doc: Doc)
    requires IdsIssued(w)
    ensures IdsIssued(InsertMetadata(w, doc))
  {
  }

  lemma SetBodyKeeps(w: World, m: Id, body: Json)
    requires Inv(w) && m in w.metadata
    ensures Inv(SetBody(w, m, body))
  {
    SameKeysSameIds(w, SetBody(w, m, body).metadata);
  }

  lemma SameKeysSameIds(w: World, metadata: map<Id, Doc>)
    requires IdsIssued(w) && metadata.Keys == w.metadata.Keys
    ensures IdsIssued(w.(metadata := metadata))
  {
  }

  // ----- Deletions -----

  lemma DropFilesKeeps(w: World, doomed: set<Id>)
    requires Inv(w)
    ensures Inv(DropFiles(w, doomed))
  {
    hide IdsIssued, ReleaseTree, BytesExact, Lineage, Numbered;
    var w' := DropFiles(w, doomed);
    DropFilesHistory(w, doomed);
    LineageKept(w, w'.releases, w'.files, w'.frozenFiles);
    DropFilesBytes(w, doomed);
    DropFilesShrinks(w, doomed);
    ShrunkIds(w, w');
  }

  lemma DropFilesHistory(w: World, doomed: set<Id>)
    requires History(w.files, w.frozenFiles, w.versions)
    ensures var w' := DropFiles(w, doomed); History(w'.files, w'.frozenFiles, w'.versions)
    ensures var w' := DropFiles(w, doomed); NoStrays(w.files, w.versions) ==> NoStrays(w'.files, w'.versions)
  {
    var w' := DropFiles(w, doomed);
    forall x, v | OfOrigin(w'.frozenFiles, w'.versions, x, v) ensures w'.versions[v].file in w'.files {
      assert OfOrigin(w.frozenFiles, w.versions, x, v);
    }
    HistoryKept(w, w'.files, w'.frozenFiles, w'.versions);
  }

  lemma DropFilesShrinks(w: World, doomed: set<Id>)
    ensures Shrunk(w, DropFiles(w, doomed))
  {
  }

  lemma DropFilesBytes(w: World, doomed: set<Id>)
    requires BytesExact(w.files, w.frozenFiles, w.objects) && Lineage(w.releases, w.files, w.frozenFiles)
    ensures var w' := DropFiles(w, doomed); BytesExact(w'.files, w'.frozenFiles, w'.objects)
  {
    var w' := DropFiles(w, doomed);
    forall o | o in w.objects ensures o in w'.objects <==> o in LiveKeys(w'.files, w.frozenFiles) {
      LiveKeyIsMinio(w.releases, w.files, w.frozenFiles, o);
    }
    assert LiveKeys(w'.files, w.frozenFiles) <= w.objects;
    assert w'.objects == LiveKeys(w'.files, w'.frozenFiles);
  }

  /** Deleting a folder leaves no orphan, and keeps the invariant, exactly when the folder is in the
      named dataset or has no child folders. */
  lemma DeleteFolderKeepsIff(w: World, d: Id, f: Id)
    requires Inv(w) && d in w.datasets && f in w.folders
    ensures Inv(DeleteFolder(w, d, f).0) <==> w.folders[f].dataset == d || !HasChild(w.folders, f)
  {
    hide IdsIssued, ReleaseTree, BytesExact, Lineage, History, Numbered;
    ReachedInOneDataset(w.folders, d, f);
    if w.folders[f].dataset != d && HasChild(w.folders, f) {
      OrphanLeft(w, d, f);
    } else {
      if w.folders[f].dataset == d {
        SubtreeDownClosed(w.folders, f);
      }
      DropFoldersKeeps(w, DoomedBy(w, d, f));
    }
  }

  lemma OrphanLeft(w: World, d: Id, f: Id)
    requires WorkingTree(w.datasets, w.folders, w.files) && d in w.datasets && f in w.folders
    requires w.folders[f].dataset != d && HasChild(w.folders, f)
    ensures !Closed(DeleteFolder(w, d, f).0.folders)
  {
    ReachedInOneDataset(w.folders, d, f);
    var c :| HasParent(w.folders, c) && ParentOf(w.folders, c) == f;
    assert RankOf(w.folders)[f] < RankOf(w.folders)[c];
    var folders := w.folders - {f};
    assert DeleteFolder(w, d, f).0.folders == folders;
    assert c in folders && folders[c].parent.value !in folders;
  }

  ghost predicate HasChild(fs: Folders, f: Id) {
    exists c :: HasParent(fs, c) && ParentOf(fs, c) == f
  }

  lemma DropFoldersKeeps(w: World, doomed: set<Id>)
    requires Inv(w) && DownClosed(w.folders, doomed)
    ensures Inv(DropFolders(w, doomed))
  {
    var w' := DropFolders(w, doomed);
    DropFilesKeeps(w, FilesIn(w.files, doomed));
    DropFoldersTree(w.datasets, w.folders, w.files, doomed);
    ShrunkIds(DropFiles(w, FilesIn(w.files, doomed)), w');
  }

  lemma DropFoldersTree(datasets: map<Id, Dataset>, folders: Folders, files: map<Id, File>, doomed: set<Id>)
    requires WorkingTree(datasets, folders, files) && DownClosed(folders, doomed)
    ensures WorkingTree(datasets, folders - doomed, files - FilesIn(files, doomed))
  {
    RemovingSubtrees(folders, doomed);
    assert forall f :: HasParent(folders - doomed, f) ==> HasParent(folders, f);
  }

  lemma DropReleasesKeeps(w: World, gone: set<Id>)
    requires Inv(w)
    ensures Inv(DropReleases(w, gone))
  {
    hide IdsIssued, BytesExact, Lineage, Numbered, WorkingTree, ReleaseTree;
    var w' := DropReleases(w, gone);
    DropReleasesHistory(w, gone);
    LineageKept(w, w'.releases, w'.files, w'.frozenFiles);
    DropReleasesBytes(w, gone);
    DropReleasesTree(w, gone);
    DropReleasesShrinks(w, gone);
    ShrunkIds(w, w');
  }

  lemma DropReleasesHistory(w: World, gone: set<Id>)
    requires History(w.files, w.frozenFiles, w.versions)
    ensures var w' := DropReleases(w, gone); History(w'.files, w'.frozenFiles, w'.versions)
  {
    var w' := DropReleases(w, gone);
    forall x, v | OfOrigin(w'.frozenFiles, w'.versions, x, v) ensures w'.versions[v].file in w'.files {
      assert OfOrigin(w.frozenFiles, w.versions, x, v);
    }
    HistoryKept(w, w'.files, w'.frozenFiles, w'.versions);
  }

  lemma DropReleasesShrinks(w: World, gone: set<Id>)
    ensures Shrunk(w, DropReleases(w, gone))
  {
  }

  lemma DropReleasesTree(w: World, gone: set<Id>)
    requires ReleaseTree(w.releases, w.frozenFolders, w.frozenFiles, w.frozenMetadata)
    ensures var w' := DropReleases(w, gone);
            && ReleaseTree(w'.releases, w'.frozenFolders, w'.frozenFiles, w'.frozenMetadata)
            && ReleaseTree(w'.releases - gone, w'.frozenFolders, w'.frozenFiles, w'.frozenMetadata)
  {
  }

  lemma DropReleasesBytes(w: World, gone: set<Id>)
    requires BytesExact(w.files, w.frozenFiles, w.objects) && Lineage(w.releases, w.files, w.frozenFiles)
    ensures var w' := DropReleases(w, gone); BytesExact(w'.files, w'.frozenFiles, w'.objects)
  {
    var w' := DropReleases(w, gone);
    var doomed := FilesOf(w.frozenFiles, gone);
    var rest := w.frozenFiles - doomed;
    forall o | o in w.objects ensures !Orphaned(w, doomed, o) <==> o in LiveKeys(w.files, rest) {
      LiveKeyIsMinio(w.releases, w.files, w.frozenFiles, o);
      if HasFrozenCopy(rest, o) {
        var y :| y in rest && rest[y].origin == Some(o);
        assert rest[y] == w.frozenFiles[y];
      } else if o !in w.files {
        var x :| x in w.frozenFiles && w.frozenFiles[x].storage == Minio && w.frozenFiles[x].origin == Some(o);
        assert x !in rest;
      }
    }
    assert LiveKeys(w.files, rest) <= w.objects;
    assert w'.objects == LiveKeys(w.files, rest);
  }

  lemma SoftDeleteKeeps(w: World, fd: Id)
    requires Inv(w) && fd in w.releases
    ensures Inv(SoftDelete(w, fd))
  {
    DropReleasesKeeps(w, {fd});
    MarkKeeps(DropReleases(w, {fd}), fd);
  }

  lemma MarkKeeps(w: World, fd: Id)
    requires Inv(w) && fd in w.releases
    ensures Inv(w.(releases := w.releases[fd := w.releases[fd].(deleted := true)]))
  {
    MarkKeepsNumbers(w, fd);
    MarkKeepsLineage(w, fd);
    MarkKeepsTree(w, fd);
    MarkKeepsIds(w, fd);
  }

  lemma MarkKeepsTree(w: World, fd: Id)
    requires ReleaseTree(w.releases, w.frozenFolders, w.frozenFiles, w.frozenMetadata) && fd in w.releases
    ensures ReleaseTree(w.releases[fd := w.releases[fd].(deleted := true)], w.frozenFolders, w.frozenFiles,
                        w.frozenMetadata)
  {
  }

  lemma MarkKeepsIds(w: World, fd: Id)
    requires IdsIssued(w) && fd in w.releases
    ensures IdsIssued(w.(releases := w.releases[fd := w.releases[fd].(deleted := true)]))
  {
  }

  lemma MarkKeepsLineage(w: World, fd: Id)
    requires Lineage(w.releases, w.files, w.frozenFiles) && fd in w.releases
    ensures Lineage(w.releases[fd := w.releases[fd].(deleted := true)], w.files, w.frozenFiles)
  {
  }

  lemma MarkKeepsNumbers(w: World, fd: Id)
    requires Numbered(w.datasets, w.releases) && fd in w.releases
    ensures Numbered(w.datasets, w.releases[fd := w.releases[fd].(deleted := true)])
  {
    var releases := w.releases[fd := w.releases[fd].(deleted := true)];
    assert forall gd, d, n :: IsVersion(releases, gd, d, n) <==> IsVersion(w.releases, gd, d, n);
    forall gd, d, n, k | IsVersion(releases, gd, d, n) && 1 <= k <= n ensures HasVersion(releases, d, k) {
      assert HasVersion(w.releases, d, k);
      var hd :| IsVersion(w.releases, hd, d, k);
      assert IsVersion(releases, hd, d, k);
    }
  }
}
