/** The routes as they run: loops over query results, record by record, on the collections of one
    database. Each is proved to have the effect stated in module State. */
module Database {
  import opened Types
  import opened Nested
  import opened Forest
  import opened FolderFreeze
  import opened State
  import opened Invariant
  import opened Downloads
  import opened Removals
  import opened Copying
  import opened Freezes

  class Store {
    var datasets: map<Id, Dataset>
    var releases: map<Id, Release>
    var folders: Folders
    var frozenFolders: Folders
    var files: map<Id, File>
    var frozenFiles: map<Id, File>
    var versions: map<Id, FileVersion>
    var metadata: map<Id, Doc>
    var frozenMetadata: map<Id, Doc>
    var visConfigs: map<Id, Doc>
    var frozenVisConfigs: map<Id, Doc>
    var visData: map<Id, Doc>
    var frozenVisData: map<Id, Doc>
    var auths: map<Id, Authorization>
    var objects: set<Id>
    var next: Id

    ghost function Contents(): World
      reads this
    {
      World(datasets, releases, folders, frozenFolders, files, frozenFiles, versions, metadata, frozenMetadata,
            visConfigs, frozenVisConfigs, visData, frozenVisData, auths, objects, next)
    }

    constructor ()
      ensures Contents() == EMPTY
    {
      datasets, releases, folders, frozenFolders, files, frozenFiles := map[], map[], map[], map[], map[], map[];
      versions, metadata, frozenMetadata, visConfigs, frozenVisConfigs := map[], map[], map[], map[], map[];
      visData, frozenVisData, auths, objects, next := map[], map[], map[], {}, 0;
    }

    /** `insert()` of a new document: the id it gets. */
    method NewId() returns (id: Id)
      modifies this`next
      ensures id == old(next) && next == id + 1
    {
      id := next;
      next := next + 1;
    }

    method CreateDataset(name: string) returns (r: Outcome<Id>)
      modifies this`datasets, this`auths, this`next
      ensures (Contents(), r) == State.CreateDataset(old(Contents()), name)
    {
      var d := NewId();
      datasets := datasets[d := Dataset(name)];
      var a := NewId();
      auths := auths[a := Authorization(d, Owner, [], [])];
      return Ok(d);
    }

    // ----- Folders -----

    method AddFolder(d: Id, name: string, parent: Option<Id>) returns (r: Outcome<Id>)
      modifies this`folders, this`next
      ensures (Contents(), r) == State.AddFolder(old(Contents()), d, name, parent)
    {
      if d !in datasets {
        return Err(404);
      }
      if parent.Some? {
        if parent.value !in folders {
          return Err(400);
        }
      }
      var id := NewId();
      folders := folders[id := Folder(name, d, parent, None)];
      return Ok(id);
    }

    method PatchFolder(d: Id, f: Id, name: Option<string>, parent: Option<Id>) returns (r: Outcome<Id>)
      modifies this`folders
      ensures (Contents(), r) == State.PatchFolder(old(Contents()), d, f, name, parent)
    {
      if d !in datasets || f !in folders {
        return Err(404);
      }
      var folder := folders[f];
      if name.Some? {
        folder := folder.(name := name.value);
      }
      if parent.Some? {
        if parent.value in folders {
          folder := folder.(parent := parent);
        }
      }
      folders := folders[f := folder];
      return Ok(f);
    }

    // ----- Files -----

    method Upload(d: Id, name: string, contentType: string, folder: Option<Id>, versionId: string)
      returns (r: Outcome<Id>)
      modifies this`files, this`versions, this`objects, this`next
      ensures (Contents(), r) == State.Upload(old(Contents()), d, name, contentType, folder, versionId)
    {
      if d !in datasets || (folder.Some? && folder.value !in folders) {
        return Err(404);
      }
      var id := StoreFile(File(name, contentType, d, folder, Minio, "N/A", 0, None), versionId);
      return Ok(id);
    }

    /** The record, then the bytes as the first version. */
    method StoreFile(file0: File, versionId: string) returns (id: Id)
      modifies this`files, this`versions, this`objects, this`next
      ensures id == old(next)
      ensures Contents() == State.StoreFile(old(Contents()), file0.(versionId := versionId, versionNum := file0.versionNum + 1))
    {
      StoreFileInTwo(Contents(), file0, versionId);
      id := InsertFile(file0);
      StoreVersion(id, versionId);
    }

    method InsertFile(file: File) returns (id: Id)
      modifies this`files, this`next
      ensures id == old(next) && id in files && Contents() == State.InsertFile(old(Contents()), file)
    {
      id := NewId();
      files := files[id := file];
    }

    /** A file the server already has: only the record. */
    method UploadLocal(d: Id, name: string, contentType: string, folder: Option<Id>, cleared: bool)
      returns (r: Outcome<Id>)
      modifies this`files, this`next
      ensures (Contents(), r) == State.UploadLocal(old(Contents()), d, name, contentType, folder, cleared)
    {
      if d !in datasets {
        return Err(404);
      }
      if !cleared {
        return Err(500);
      }
      if folder.Some? && folder.value !in folders {
        return Err(404);
      }
      var id := InsertFile(File(name, contentType, d, folder, Local, "N/A", 0, None));
      return Ok(id);
    }

    method UpdateFile(f: Id, name: string, contentType: string, versionId: string) returns (r: Outcome<Id>)
      modifies this`files, this`versions, this`objects, this`next
      ensures (Contents(), r) == State.UpdateFile(old(Contents()), f, name, contentType, versionId)
    {
      if f !in files {
        return Err(404);
      }
      if name != files[f].name || contentType != files[f].contentType {
        return Err(400);
      }
      StoreVersion(f, versionId);
      return Ok(f);
    }

    method StoreVersion(f: Id, versionId: string)
      requires f in files
      modifies this`files, this`versions, this`objects, this`next
      ensures Contents() == State.StoreVersion(old(Contents()), f, versionId)
    {
      var file := files[f];
      objects := objects + {f};
      file := file.(versionId := versionId);
      file := file.(versionNum := file.versionNum + 1);
      files := files[f := file];
      var v := NewId();
      versions := versions[v := FileVersion(f, file.versionId, file.versionNum)];
    }

    method DeleteFile(f: Id) returns (r: Outcome<Id>)
      modifies this`files, this`versions, this`metadata, this`objects
      ensures (Contents(), r) == State.DeleteFile(old(Contents()), f)
    {
      if f !in files {
        return Err(404);
      }
      if files[f].storage == Minio {
        RemoveStoredFile(f);
      } else {
        RemoveLocalFile(f);
      }
      return Ok(f);
    }

    method RemoveStoredFile(f: Id)
      modifies this`files, this`versions, this`metadata, this`objects
      ensures Contents() == DropStoredFile(old(Contents()), f)
    {
      objects := objects - {f};
      RemoveLocalFile(f);
      versions := VersionsBut(versions, f);
    }

    method RemoveLocalFile(f: Id)
      modifies this`files, this`metadata
      ensures Contents() == DropLocalFile(old(Contents()), f)
    {
      files := files - {f};
      metadata := DocsOfOthers(metadata, f);
    }

    /** The object under the file's own id or, for a frozen file, under its origin; with a version
        number, the object version of a matching record. */
    method DownloadFile(f: Id, version: Option<int>) returns (r: Outcome<Download>)
      ensures Answer(Contents(), f, version, r)
    {
      if f !in files && f !in frozenFiles {
        return Err(404);
      }
      var file := if f in files then files[f] else frozenFiles[f];
      var key := if f in files || file.origin.None? then f else file.origin.value;
      if file.storage == Local {
        return Ok(LocalPath(f));
      }
      if version.None? {
        return Ok(Object(key, None));
      }
      if found: Id :| found in versions && (Records(versions, found, f, version.value) ||
                                            Records(versions, found, key, version.value)) {
        assert LooksUp(Contents(), f, version.value, found);
        return Ok(Object(key, Some(versions[found].versionId)));
      }
      return Err(404);
    }

    method AddMetadata(d: Id, m: MetadataIn) returns (r: Outcome<Id>)
      modifies this`metadata, this`next
      ensures (Contents(), r) == State.AddMetadata(old(Contents()), d, m)
    {
      if d !in datasets {
        return Err(404);
      }
      if m.definition.Some? {
        var older := FindMetadata(d, m);
        if older.Some? {
          return Err(409);
        }
      }
      if !m.accepted {
        return Err(400);
      }
      var id := InsertMetadata(Doc(Ref(Datasets, d), m.definition, m.agent, m.version, m.body, None));
      return Ok(id);
    }

    method AddFileMetadata(f: Id, m: MetadataIn) returns (r: Outcome<Id>, pick: Option<Id>)
      modifies this`metadata, this`next
      ensures Answers(pick, MetadataFor(old(Contents()), f, m))
      ensures (Contents(), r) == State.AddFileMetadata(old(Contents()), f, m, pick)
    {
      pick := FindMetadata(f, m);
      if f !in files {
        return Err(404), pick;
      }
      var version := m.version;
      if version.None? {
        version := Some(files[f].versionNum);
      }
      if m.definition.Some? && pick.Some? && metadata[pick.value].version == version {
        return Err(409), pick;
      }
      if !m.accepted {
        return Err(400), pick;
      }
      if version.value > 0 {
        if !HasRecord(versions, f, version.value) {
          return Err(404), pick;
        }
      } else {
        version := Some(files[f].versionNum);
      }
      if m.agent.listener.Some? && !m.registered {
        return Err(404), pick;
      }
      var id := InsertMetadata(Doc(Ref(Files, f), m.definition, m.agent, version, m.body, None));
      return Ok(id), pick;
    }

    method FindMetadata(owner: Id, m: MetadataIn) returns (older: Option<Id>)
      ensures Answers(older, MetadataFor(Contents(), owner, m))
    {
      older := None;
      if found: Id :| found in metadata && metadata[found].owner.id == owner &&
                      metadata[found].definition == m.definition && WrittenBy(metadata[found].agent, m.agent) {
        older := Some(found);
      }
    }

    method InsertMetadata(doc: Doc) returns (id: Id)
      modifies this`metadata, this`next
      ensures id == old(next) && Contents() == State.InsertMetadata(old(Contents()), doc)
    {
      id := NewId();
      metadata := metadata[id := doc];
    }

    method PatchMetadata(m: Id, patch: Json, accepted: bool) returns (r: Outcome<Id>)
      requires patch.Obj?
      modifies this`metadata
      ensures (Contents(), r) == State.PatchMetadata(old(Contents()), m, patch, accepted)
    {
      if m !in metadata {
        return Err(404);
      }
      var updated := DeepUpdate(metadata[m].body, patch);
      if updated.Err? {
        return Err(500);
      }
      if !accepted {
        return Err(400);
      }
      metadata := metadata[m := metadata[m].(body := updated.value)];
      return Ok(m);
    }

    // ----- Deleting folders -----

    /** The reference-counting removal of one working file. */
    method RemoveFileEntry(f: Id) returns (r: Outcome<Id>)
      modifies this`files, this`versions, this`metadata, this`objects
      ensures f in old(files) ==> r == Ok(f) && Contents() == DropFiles(old(Contents()), {f})
      ensures f !in old(files) ==> r == Err(404) && Contents() == old(Contents())
    {
      hide DropFiles;
      if f !in files {
        return Err(404);
      }
      DropOneFile(Contents(), f);
      versions := VersionsBut(versions, f);
      metadata := DocsBut(metadata, Ref(Files, f));
      files := files - {f};
      if !HasFrozenCopy(frozenFiles, f) {
        objects := objects - {f};
      }
      return Ok(f);
    }

    method RemoveFiles(doomed: set<Id>)
      requires doomed <= files.Keys
      modifies this`files, this`versions, this`metadata, this`objects
      ensures Contents() == DropFiles(old(Contents()), doomed)
    {
      ghost var w := Contents();
      var rest := doomed;
      DropNoFiles(w);
      assert doomed - rest == {};
      while rest != {}
        invariant rest <= doomed
        invariant Contents() == DropFiles(w, doomed - rest)
        decreases |rest|
      {
        var x :| x in rest;
        assert doomed - (rest - {x}) == (doomed - rest) + {x};
        var _ := RemoveFileEntry(x);
        DropFilesCompose(w, doomed - rest, {x});
        rest := rest - {x};
      }
      assert doomed - rest == doomed;
    }

    /** The nested recursion of `delete_folder`: everything below `p`, as far as it is in dataset `d`. It
        moves in a forest `gs`; a recursion that comes back to where it started would not end. */
    method DeleteNestedFolders(d: Id, p: Id, ghost gs: Folders)
      requires Answering(folders, d, gs) && p in gs
      modifies this`folders, this`files, this`versions, this`metadata, this`objects
      ensures Contents() == DropFolders(old(Contents()), Subtree(gs, p) - {p})
      decreases Subtree(gs, p), 2
    {
      ghost var w := Contents();
      StrictSubtree(gs, p);
      DropNoFolders(w);
      ghost var rounds := 1;
      while Children(folders, d, p) != {}
        invariant rounds == 1 ==> Contents() == w
        invariant rounds == 0 ==> Contents() == DropFolders(w, Subtrees(gs, Kids(gs, p)))
        invariant rounds == 0 || rounds == 1
        decreases rounds
      {
        NoChildLeft(w.folders, d, gs, p);
        DeleteChildren(d, p, gs);
        rounds := 0;
      }
    }

    /** One pass over the children the query lists. */
    method DeleteChildren(d: Id, p: Id, ghost gs: Folders)
      requires Answering(folders, d, gs) && p in gs
      modifies this`folders, this`files, this`versions, this`metadata, this`objects
      ensures Contents() == DropFolders(old(Contents()), Subtrees(gs, Kids(gs, p)))
      decreases Subtree(gs, p), 1
    {
      ghost var w, done: set<Id> := Contents(), {};
      var kids := Children(folders, d, p);
      var rest := kids;
      DropNoFolders(w);
      assert Subtrees(gs, {}) == {};
      NoneLeft(kids);
      while rest != {}
        invariant rest <= kids && done == kids - rest
        invariant Contents() == DropFolders(w, Subtrees(gs, done))
        decreases |rest|
      {
        var c :| c in rest;
        OneLess(kids, rest, c);
        ChildSubtreeSmaller(gs, c);
        DeleteChild(d, p, c, gs, done, w);
        done, rest := done + {c}, rest - {c};
      }
      assert done == kids;
    }

    method DeleteChild(d: Id, p: Id, c: Id, ghost gs: Folders, ghost done: set<Id>, ghost w: World)
      requires Answering(w.folders, d, gs) && p in gs
      requires done <= Kids(gs, p) && c in Kids(gs, p) && c !in done
      requires Contents() == DropFolders(w, Subtrees(gs, done))
      modifies this`folders, this`files, this`versions, this`metadata, this`objects
      ensures Contents() == DropFolders(w, Subtrees(gs, done + {c}))
      decreases Subtree(gs, c), 4
    {
      StillAnswering(w.folders, d, gs, p, done, c);
      DeleteOne(d, c, gs - Subtrees(gs, done));
      DropFoldersCompose(w, Subtrees(gs, done), Subtree(gs, c));
    }

    /** One folder: its files, what is below it, the folder itself. */
    method DeleteOne(d: Id, f: Id, ghost gs: Folders)
      requires Answering(folders, d, gs) && f in gs
      modifies this`folders, this`files, this`versions, this`metadata, this`objects
      ensures Contents() == DropFolders(old(Contents()), Subtree(gs, f))
      decreases Subtree(gs, f), 3
    {
      hide DropFiles;
      ghost var w := Contents();
      RemoveFiles(FilesIn(files, {f}));
      DeleteNestedFolders(d, f, gs);
      folders := folders - {f};
      assert Under(gs, f, f);
      ghost var below := Subtree(gs, f) - {f};
      FolderGoesLast(w, f, below);
      assert below + {f} == Subtree(gs, f);
    }

    method DeleteFolder(d: Id, f: Id) returns (r: Outcome<Id>)
      requires d in datasets && f in folders ==> !ComesBack(folders, d, f)
      modifies this`folders, this`files, this`versions, this`metadata, this`objects
      ensures (Contents(), r) == State.DeleteFolder(old(Contents()), d, f)
    {
      if d !in datasets || f !in folders {
        return Err(404);
      }
      ConeAnswers(folders, d, f);
      DeleteOne(d, f, Cone(folders, d, f));
      return Ok(f);
    }

    // ----- Deleting releases and datasets -----

    /** Removal of one frozen file; only the last reference takes the bytes along. */
    method RemoveFrozenFileEntry(x: Id) returns (r: Outcome<Id>)
      modifies this`frozenFiles, this`frozenMetadata, this`objects
      ensures x in old(frozenFiles) ==> r == Ok(x) && Contents() == DropFrozenFiles(old(Contents()), {x})
      ensures x !in old(frozenFiles) ==> r == Err(404) && Contents() == old(Contents())
    {
      hide DropFrozenFiles;
      if x !in frozenFiles {
        return Err(404);
      }
      var file := frozenFiles[x];
      DropOneFrozenFile(Contents(), x);
      if file.storage == Local {
        frozenMetadata := DocsOfOthers(frozenMetadata, x);
      } else {
        frozenMetadata := DocsBut(frozenMetadata, Ref(Files, x));
      }
      frozenFiles := frozenFiles - {x};
      if file.storage == Minio && file.origin.Some? {
        if !HasFrozenCopy(frozenFiles, file.origin.value) && file.origin.value !in files {
          objects := objects - {file.origin.value};
        }
      }
      return Ok(x);
    }

    method RemoveFrozenFiles(doomed: set<Id>)
      requires Lineage(releases, files, frozenFiles) && doomed <= frozenFiles.Keys
      modifies this`frozenFiles, this`frozenMetadata, this`objects
      ensures Contents() == DropFrozenFiles(old(Contents()), doomed)
    {
      ghost var w := Contents();
      var rest := doomed;
      NoneLeft(doomed);
      DropNoFrozenFiles(w);
      while rest != {}
        invariant rest <= doomed
        invariant Contents() == DropFrozenFiles(w, doomed - rest)
        decreases |rest|
      {
        var x :| x in rest;
        OneLess(doomed, rest, x);
        var _ := RemoveFrozenFileEntry(x);
        DropFrozenFilesCompose(w, doomed - rest, {x});
        rest := rest - {x};
      }
    }

    /** What deleting a release does before its record is removed or marked. */
    method DropRelease(fd: Id)
      requires Lineage(releases, files, frozenFiles)
      modifies this`frozenFiles, this`frozenFolders, this`frozenMetadata, this`auths, this`objects
      ensures Contents() == DropReleases(old(Contents()), {fd})
    {
      DropOneRelease(Contents(), fd);
      DeleteFrozenDocsAndFolders(fd);
      RemoveFrozenFiles(FilesOf(frozenFiles, {fd}));
      DeleteAuths(fd);
    }

    method DeleteFrozenDocsAndFolders(fd: Id)
      modifies this`frozenMetadata, this`frozenFolders
      ensures Contents() == DropDocsAndFolders(old(Contents()), fd)
    {
      frozenMetadata := map m | m in frozenMetadata && frozenMetadata[m].owner != Ref(Datasets, fd) :: frozenMetadata[m];
      frozenFolders := frozenFolders - FoldersOf(frozenFolders, {fd});
    }

    method DeleteAuths(d: Id)
      modifies this`auths
      ensures Contents() == old(Contents()).(auths := map a | a in old(auths) && old(auths)[a].dataset != d :: old(auths)[a])
    {
      auths := map a | a in auths && auths[a].dataset != d :: auths[a];
    }

    /** The version route: the lookup does not ask whether the release is already marked. */
    method DeleteVersion(d: Id, number: int) returns (r: Outcome<Id>)
      requires Lineage(releases, files, frozenFiles)
      modifies this`releases, this`frozenFiles, this`frozenFolders, this`frozenMetadata, this`auths, this`objects
      ensures r.Ok? ==> IsVersion(old(releases), r.value, d, number) &&
                        Contents() == SoftDelete(old(Contents()), r.value)
      ensures r.Err? ==> r == Err(404) && !HasVersion(old(releases), d, number) && Contents() == old(Contents())
    {
      if fd: Id :| fd in releases && IsVersion(releases, fd, d, number) {
        DropRelease(fd);
        releases := releases[fd := releases[fd].(deleted := true)];
        return Ok(fd);
      }
      return Err(404);
    }

    /** `get_freeze_dataset_version` */
    method GetVersion(d: Id, number: int) returns (r: Outcome<Id>)
      ensures Shown(releases, d, number, r)
    {
      if fd: Id :| fd in releases && IsVersion(releases, fd, d, number) {
        if releases[fd].deleted {
          return Err(404);
        }
        return Ok(fd);
      }
      return Err(404);
    }

    method DeleteDataset(d: Id) returns (r: Outcome<Id>)
      requires Lineage(releases, files, frozenFiles)
      modifies this
      ensures (Contents(), r) == State.DeleteDataset(old(Contents()), d)
    {
      if d !in datasets {
        return Err(404);
      }
      DeleteAllReleases(d);
      DeleteWorkingDataset(d);
      return Ok(d);
    }

    method DeleteWorkingDataset(d: Id)
      modifies this
      ensures Contents() == DropDataset(old(Contents()), d)
    {
      DeleteDocsAndFolders(d);
      RemoveFiles(FilesOf(files, {d}));
      DeleteAuths(d);
      datasets := datasets - {d};
    }

    method DeleteDocsAndFolders(d: Id)
      modifies this`metadata, this`folders
      ensures Contents() == DropWorkingDocs(old(Contents()), d)
    {
      metadata := map m | m in metadata && metadata[m].owner != Ref(Datasets, d) :: metadata[m];
      folders := folders - FoldersOf(folders, {d});
    }

    /** The releases of a dataset, deleted with their records. */
    method DeleteAllReleases(d: Id)
      requires Lineage(releases, files, frozenFiles)
      modifies this`releases, this`frozenFiles, this`frozenFolders, this`frozenMetadata, this`auths, this`objects
      ensures Contents() == DropReleases(old(Contents()), ReleasesOf(old(releases), d))
                            .(releases := old(releases) - ReleasesOf(old(releases), d))
    {
      ghost var w := Contents();
      var gone := ReleasesOf(releases, d);
      var rest := gone;
      NoneLeft(gone);
      DropNoReleases(w);
      assert releases - {} == releases;
      while rest != {}
        invariant rest <= gone
        invariant Contents() == DropReleases(w, gone - rest).(releases := w.releases - (gone - rest))
        decreases |rest|
      {
        var fd :| fd in rest;
        OneLess(gone, rest, fd);
        DeleteRelease(fd, w, gone - rest);
        rest := rest - {fd};
      }
    }

    method DeleteRelease(fd: Id, ghost w: World, ghost done: set<Id>)
      requires Lineage(w.releases, w.files, w.frozenFiles) && fd !in done
      requires Contents() == DropReleases(w, done).(releases := w.releases - done)
      modifies this`releases, this`frozenFiles, this`frozenFolders, this`frozenMetadata, this`auths, this`objects
      ensures Contents() == DropReleases(w, done + {fd}).(releases := w.releases - (done + {fd}))
    {
      LineageAfterDrop(w, done);
      DropRelease(fd);
      ReleasesCommute(DropReleases(w, done), {fd}, w.releases - done);
      DropReleasesCompose(w, done, {fd});
      releases := releases - {fd};
      assert w.releases - done - {fd} == w.releases - (done + {fd});
    }

    // ----- Freezing -----

    /** The folder recursion; `memo` is `parent_id_map`. A parent that is gone is an exception, raised
        before anything is inserted. */
    method FreezeFolder(f: Id, fd: Id, memo: map<Id, Id>, ghost gs: Folders) returns (frozen: Option<Id>, memo': map<Id, Id>)
      requires UpClosed(folders, gs) && Acyclic(gs) && f in gs && forall g :: g in memo ==> Rooted(gs, g)
      modifies this`frozenFolders, this`next
      ensures frozen.Some? <==> Rooted(gs, f)
      ensures frozen.None? ==> memo' == memo && frozenFolders == old(frozenFolders) && next == old(next)
      ensures frozen.Some? ==> Freezing(frozenFolders, next, memo') ==
                               FolderFreeze.FreezeFolder(gs, f, fd, Freezing(old(frozenFolders), old(next), memo))
      ensures frozen.Some? ==> f in memo' && memo'[f] == frozen.value
      ensures forall g :: g in memo' ==> Rooted(gs, g)
      decreases RankOf(gs)[f]
    {
      FreezeFolderUnfolds(gs, f, fd, Freezing(frozenFolders, next, memo));
      hide FolderFreeze.FreezeFolder, FolderFreeze.Insert, Rooted;
      var folder := folders[f];
      memo' := memo;
      var parent := None;
      if folder.parent.Some? {
        var p := folder.parent.value;
        if p in memo' {
          parent := Some(memo'[p]);
        } else {
          if p !in folders {
            return None, memo';
          }
          assert HasParent(folders, f) && HasParent(gs, f);
          var frozenParent;
          frozenParent, memo' := FreezeFolder(p, fd, memo', gs);
          if frozenParent.None? {
            return None, memo';
          }
          parent := frozenParent;
          assert memo'[p := frozenParent.value] == memo';
          memo' := memo'[p := frozenParent.value];
        }
      }
      var k;
      k, memo' := InsertFrozenFolder(f, fd, parent, memo', gs);
      return Some(k), memo';
    }

    method InsertFrozenFolder(f: Id, fd: Id, parent: Option<Id>, memo: map<Id, Id>, ghost gs: Folders)
      returns (k: Id, memo': map<Id, Id>)
      requires f in folders && f in gs && gs[f] == folders[f]
      modifies this`frozenFolders, this`next
      ensures Freezing(frozenFolders, next, memo') ==
              FolderFreeze.Insert(gs, f, fd, parent, Freezing(old(frozenFolders), old(next), memo))
      ensures memo' == memo[f := k]
    {
      k := NewId();
      frozenFolders := frozenFolders[k := Folder(folders[f].name, fd, parent, Some(f))];
      memo' := memo[f := k];
    }

    /** The loop over the folders of the dataset, in the order the query lists them, up to the first
        exception. */
    method FreezeFolders(d: Id, fd: Id) returns (order: seq<Id>, done: nat, memo: map<Id, Id>)
      requires Acyclic(Reached(folders, d))
      modifies this`frozenFolders, this`next
      ensures Lists(order, FoldersOf(folders, {d})) && done <= |order|
      ensures done < |order| ==> !Rooted(Reached(folders, d), order[done])
      ensures FrozenUpTo(Reached(folders, d), order, done, fd, Freezing(old(frozenFolders), old(next), map[]),
                         Freezing(frozenFolders, next, memo))
    {
      order := Listing(FoldersOf(folders, {d}));
      AboveIsUpClosed(folders, FoldersOf(folders, {d}));
      done, memo := FreezeListing(order, fd, Reached(folders, d));
    }

    method FreezeListing(order: seq<Id>, fd: Id, ghost gs: Folders) returns (done: nat, memo: map<Id, Id>)
      requires UpClosed(folders, gs) && Acyclic(gs) && forall f :: f in order ==> f in gs
      modifies this`frozenFolders, this`next
      ensures done <= |order| && (done < |order| ==> !Rooted(gs, order[done]))
      ensures FrozenUpTo(gs, order, done, fd, Freezing(old(frozenFolders), old(next), map[]),
                         Freezing(frozenFolders, next, memo))
    {
      ghost var s := Freezing(frozenFolders, next, map[]);
      NoneFrozenYet(gs, order, fd, s);
      hide FrozenUpTo, Rooted;
      memo := map[];
      done := 0;
      while done < |order|
        invariant done <= |order| && FrozenUpTo(gs, order, done, fd, s, Freezing(frozenFolders, next, memo))
      {
        var frozen;
        frozen, memo := FreezeListedFolder(order, done, fd, memo, gs, s);
        if frozen.None? {
          return;
        }
        done := done + 1;
      }
    }

    method FreezeListedFolder(order: seq<Id>, done: nat, fd: Id, memo: map<Id, Id>, ghost gs: Folders, ghost s: Freezing)
      returns (frozen: Option<Id>, memo': map<Id, Id>)
      requires UpClosed(folders, gs) && done < |order| && order[done] in gs
      requires FrozenUpTo(gs, order, done, fd, s, Freezing(frozenFolders, next, memo))
      modifies this`frozenFolders, this`next
      ensures frozen.Some? <==> Rooted(gs, order[done])
      ensures FrozenUpTo(gs, order, if frozen.Some? then done + 1 else done, fd, s, Freezing(frozenFolders, next, memo'))
    {
      hide FrozenUpTo;
      ghost var t := Freezing(frozenFolders, next, memo);
      UpToIsRooted(gs, order, done, fd, s, t);
      frozen, memo' := FreezeFolder(order[done], fd, memo, gs);
      if frozen.Some? {
        OneMoreFrozen(gs, order, done, fd, s, t, Freezing(frozenFolders, next, memo'));
      }
    }

    /** Metadata and visualizations of one dataset or file. */
    method FreezeResource(from: Ref, to: Ref)
      requires DocsIssued(Contents()) && NothingBelow(Contents(), to) && to.id < next
      modifies this`frozenMetadata, this`frozenVisConfigs, this`frozenVisData, this`next
      ensures DocsIssued(Contents()) && DocsGrow(old(Contents()), Contents(), to)
      ensures ResourceCopied(old(Contents()), Contents(), from, to)
    {
      ghost var w := Contents();
      FreezeMetadata(from, to);
      var found := set o | o in visConfigs && visConfigs[o].owner == from;
      FreezeConfigs(found, from, to, w);
      ConfigsAreCopied(w, Contents(), from, to);
    }

    method FreezeConfigs(found: set<Id>, from: Ref, to: Ref, ghost w: World)
      requires found == set o | o in visConfigs && visConfigs[o].owner == from
      requires w.next <= next && WorkingDocs(w, Contents()) && Copied(w, Contents(), from, to, {})
      modifies this`frozenVisConfigs, this`frozenVisData, this`next
      ensures w.next <= next && Copied(w, Contents(), from, to, found)
    {
      var rest := found;
      ghost var done: set<Id> := {};
      NoneLeft(found);
      while rest != {}
        invariant rest <= found && done == found - rest && w.next <= next && WorkingDocs(w, Contents())
        invariant Copied(w, Contents(), from, to, done)
        decreases |rest|
      {
        var o :| o in rest;
        OneLess(found, rest, o);
        FreezeConfig(o, from, to, w, done);
        done, rest := done + {o}, rest - {o};
      }
      assert done == found;
    }

    method FreezeMetadata(from: Ref, to: Ref)
      requires DocsIssued(Contents()) && NothingBelow(Contents(), to) && to.id < next
      modifies this`frozenMetadata, this`next
      ensures old(next) <= next && Copied(old(Contents()), Contents(), from, to, {})
    {
      ghost var w := Contents();
      frozenMetadata, next := CopyDocs(metadata, frozenMetadata, from, to, next);
      assert Contents() == w.(frozenMetadata := frozenMetadata, next := next);
      NoConfigsYet(w, Contents(), from, to);
    }

    /** One visualization config and the data below it. */
    method FreezeConfig(o: Id, from: Ref, to: Ref, ghost w: World, ghost done: set<Id>)
      requires w.next <= next && WorkingDocs(w, Contents()) && Copied(w, Contents(), from, to, done)
      requires o in visConfigs && visConfigs[o].owner == from && o !in done
      modifies this`frozenVisConfigs, this`frozenVisData, this`next
      ensures old(next) <= next && WorkingDocs(w, Contents()) && Copied(w, Contents(), from, to, done + {o})
    {
      hide Copied, ConfigsCopied;
      ghost var before := Contents();
      var c := NewId();
      NoDataYet(w, before, from, to, done, c);
      frozenVisConfigs := frozenVisConfigs[c := visConfigs[o].(owner := to, origin := Some(o))];
      frozenVisData, next := CopyDocs(visData, frozenVisData, Ref(VisConfigs, o), Ref(VisConfigs, c), next);
      OneMoreConfig(w, before, Contents(), from, to, done, o, c);
    }

    /** The loop over the files of the dataset. */
    method FreezeFiles(d: Id, fd: Id, memo: map<Id, Id>)
      requires DocsIssued(Contents()) && Issued(frozenFiles, next) && fd < next
      requires forall x :: x in frozenFiles ==> frozenFiles[x].dataset != fd
      requires Mapped(Contents(), d, fd, memo)
      modifies this`frozenFiles, this`frozenMetadata, this`frozenVisConfigs, this`frozenVisData, this`next
      ensures FilesFrozen(old(Contents()), Contents(), d, fd, FilesOf(files, {d}))
    {
      ghost var w := Contents();
      var found := FilesOf(files, {d});
      var rest := found;
      ghost var done: set<Id> := {};
      NoneLeft(found);
      NoFilesYet(w, d, fd);
      while rest != {}
        invariant rest <= found && done == found - rest && SameTree(w, Contents())
        invariant DocsIssued(Contents()) && FilesFrozen(w, Contents(), d, fd, done)
        decreases |rest|
      {
        var o :| o in rest;
        OneLess(found, rest, o);
        FreezeFile(o, d, fd, memo, w, done);
        done, rest := done + {o}, rest - {o};
      }
      assert done == found == FilesOf(files, {d});
    }

    /** One file and the documents attached to it. */
    method FreezeFile(o: Id, d: Id, fd: Id, memo: map<Id, Id>, ghost w: World, ghost done: set<Id>)
      requires SameTree(w, Contents()) && Mapped(w, d, fd, memo) && Issued(w.frozenFiles, w.next)
      requires DocsIssued(Contents()) && FilesFrozen(w, Contents(), d, fd, done)
      requires o in files && files[o].dataset == d && o !in done
      modifies this`frozenFiles, this`frozenMetadata, this`frozenVisConfigs, this`frozenVisData, this`next
      ensures SameTree(w, Contents()) && DocsIssued(Contents()) && FilesFrozen(w, Contents(), d, fd, done + {o})
    {
      ghost var before := Contents();
      var x := InsertFrozenFile(o, d, fd, memo, w);
      ghost var inserted := Contents();
      NothingBelowNew(before, inserted, x);
      FreezeResource(Ref(Files, o), Ref(Files, x));
      SameSource(inserted, w, Contents(), Ref(Files, o), Ref(Files, x));
      OneMoreFile(w, before, inserted, Contents(), d, fd, done, o, x);
    }

    /** The record alone: moved to the release, its folder replaced as far as the map knows it. */
    method InsertFrozenFile(o: Id, d: Id, fd: Id, memo: map<Id, Id>, ghost w: World) returns (x: Id)
      requires Mapped(w, d, fd, memo) && files == w.files && o in files && files[o].dataset == d
      modifies this`frozenFiles, this`next
      ensures x == old(next) && x in frozenFiles
      ensures Contents() == old(Contents()).(frozenFiles := old(frozenFiles)[x := frozenFiles[x]], next := x + 1)
      ensures frozenFiles[x].dataset == fd && frozenFiles[x].origin == Some(o)
      ensures IsFileCopy(w, d, fd, w.frozenFolders, frozenFiles[x], o)
    {
      var copy := files[o].(dataset := fd, origin := Some(o));
      if copy.folder.Some? && copy.folder.value in memo {
        copy := copy.(folder := Some(memo[copy.folder.value]));
      }
      x := NewId();
      frozenFiles := frozenFiles[x := copy];
    }

    /** Highest number first, soft-deleted releases included. */
    method NextNumber(d: Id) returns (n: nat)
      ensures IsNextNumber(releases, d, n)
    {
      var found := ReleasesOf(releases, d);
      n := 1;
      var rest := found;
      while rest != {}
        invariant rest <= found && n >= 1
        invariant forall fd :: fd in found - rest ==> releases[fd].number < n
        invariant n == 1 || exists fd :: fd in found && releases[fd].number == n - 1
        decreases |rest|
      {
        var fd :| fd in rest;
        if releases[fd].number + 1 > n {
          n := releases[fd].number + 1;
        }
        rest := rest - {fd};
      }
    }

    /** `freeze_dataset`: the new release is a snapshot of the working dataset, and its folders are
        exactly what the loop over some listing makes; unless a folder it reaches names a parent that is
        gone, which is an exception in the middle of that loop. */
    method Freeze(d: Id) returns (r: Outcome<Id>)
      requires Orderly(Contents()) && (d in datasets ==> Acyclic(Reached(folders, d)))
      modifies this
      ensures d !in old(datasets) ==> r == Err(404) && Contents() == old(Contents())
      ensures d in old(datasets) ==> old(next) in releases &&
                                     FreezeEnded(old(Contents()), d, releases[old(next)].number, Contents())
      ensures d in old(datasets) ==> r == if Closed(Reached(old(folders), d)) then Ok(old(next)) else Err(500)
      ensures r.Ok? ==> FromListing(old(folders), old(frozenFolders), d, r.value, frozenFolders)
    {
      if d !in datasets {
        return Err(404);
      }
      OrderlyIsFreezable(Contents(), d);
      var fd, n, whole := FreezeExisting(d);
      return if whole then Ok(fd) else Err(500);
    }

    method FreezeExisting(d: Id) returns (fd: Id, n: nat, whole: bool)
      requires Freezable(Contents(), d) && d in datasets
      modifies this
      ensures fd == old(next) && fd in releases && releases[fd].number == n
      ensures whole <==> Closed(Reached(old(folders), d))
      ensures FreezeEnded(old(Contents()), d, n, Contents())
      ensures whole ==> FromListing(old(Contents()).folders, old(Contents()).frozenFolders, d, fd, Contents().frozenFolders)
    {
      hide FreezeEnded, FromListing, ContentsFrozen, ContentsBroken, Reached, Closed, Freezable, IsNextNumber;
      ghost var w := Contents();
      n := NextNumber(d);
      fd := InsertRelease(d, n);
      whole := FreezeContents(d, fd, w);
      Conclude(whole, fd, d, n, w);
    }

    method Conclude(whole: bool, fd: Id, d: Id, n: nat, ghost w: World)
      requires fd == w.next && IsNextNumber(w.releases, d, n) && ReleaseBegun(w, Contents(), d, n)
      requires whole <==> Closed(Reached(w.folders, d))
      requires if whole then ContentsFrozen(w, Contents(), d, fd) else ContentsBroken(w, Contents(), d, fd)
      modifies this`auths, this`next
      ensures FreezeEnded(w, d, n, Contents())
      ensures whole ==> FromListing(w.folders, w.frozenFolders, d, fd, Contents().frozenFolders)
    {
      hide Froze, FreezeBroke, FromListing, ContentsFrozen, ContentsBroken, Reached, Closed;
      if whole {
        Authorize(fd, d, n, w);
      } else {
        FreezeBroken(w, Contents(), d, n);
      }
    }

    method InsertRelease(d: Id, n: nat) returns (fd: Id)
      requires d in datasets
      modifies this`releases, this`next
      ensures fd == old(next)
      ensures Contents() == old(Contents()).(releases := releases, next := fd + 1)
      ensures releases == old(releases)[fd := Release(datasets[d].name, d, n, false)]
    {
      fd := NewId();
      releases := releases[fd := Release(datasets[d].name, d, n, false)];
    }

    /** The owner's authorization closes the freeze. */
    method Authorize(fd: Id, d: Id, n: nat, ghost w: World)
      requires fd == w.next && IsNextNumber(w.releases, d, n)
      requires ReleaseBegun(w, Contents(), d, n) && ContentsFrozen(w, Contents(), d, fd)
      modifies this`auths, this`next
      ensures Froze(w, d, n, Contents()) && FromListing(w.folders, w.frozenFolders, d, fd, Contents().frozenFolders)
    {
      ghost var before := Contents();
      var a := NewId();
      auths := auths[a := Authorization(fd, Owner, [], [])];
      FreezeDone(w, before, Contents(), d, n);
    }

    /** The dataset's documents, its folders, its files. */
    method FreezeContents(d: Id, fd: Id, ghost w: World) returns (whole: bool)
      requires Freezable(w, d) && d in datasets && fd == w.next
      requires Contents() == w.(releases := releases, next := fd + 1)
      modifies this`frozenFolders, this`frozenFiles, this`frozenMetadata, this`frozenVisConfigs, this`frozenVisData,
               this`next
      ensures whole <==> Closed(Reached(w.folders, d))
      ensures if whole then ContentsFrozen(w, Contents(), d, fd) else ContentsBroken(w, Contents(), d, fd)
    {
      hide ContentsFrozen, ContentsBroken;
      ghost var w0 := Contents();
      NothingBelowFresh(w, d, w0);
      FreezeDatasetDocs(d, fd, w);
      whole := FreezeTree(d, fd, w, w0);
    }

    method FreezeDatasetDocs(d: Id, fd: Id, ghost w: World)
      requires fd == w.next && Contents() == w.(releases := releases, next := fd + 1)
      requires DocsIssued(Contents()) && NothingBelow(Contents(), Ref(Datasets, fd))
      modifies this`frozenMetadata, this`frozenVisConfigs, this`frozenVisData, this`next
      ensures DatasetFrozen(w, old(Contents()), Contents(), d, fd)
    {
      FreezeResource(Ref(Datasets, d), Ref(Datasets, fd));
    }

    method FreezeTree(d: Id, fd: Id, ghost w: World, ghost w0: World) returns (whole: bool)
      requires Freezable(w, d) && d in datasets && DatasetFrozen(w, w0, Contents(), d, fd)
      modifies this`frozenFolders, this`frozenFiles, this`frozenMetadata, this`frozenVisConfigs, this`frozenVisData,
               this`next
      ensures whole <==> Closed(Reached(w.folders, d))
      ensures if whole then ContentsFrozen(w, Contents(), d, fd) else ContentsBroken(w, Contents(), d, fd)
    {
      ghost var w1 := Contents();
      var memo;
      whole, memo := FreezeFolderTree(d, fd, w, w0);
      if whole {
        ghost var w2 := Contents();
        assert TreeFrozen(w, w0, w1, w2, d, fd);
        FreezeFiles(d, fd, memo);
        StagesDone(w, w0, w1, w2, Contents(), d, fd);
      }
    }

    method FreezeFolderTree(d: Id, fd: Id, ghost w: World, ghost w0: World) returns (whole: bool, memo: map<Id, Id>)
      requires Freezable(w, d) && DatasetFrozen(w, w0, Contents(), d, fd)
      modifies this`frozenFolders, this`next
      ensures whole <==> Closed(Reached(w.folders, d))
      ensures if whole then TreeReady(w, w0, old(Contents()), Contents(), d, fd, memo)
              else ContentsBroken(w, Contents(), d, fd)
    {
      ghost var w1 := Contents();
      var order, done;
      order, done, memo := FreezeFolders(d, fd);
      whole := done == |order|;
      hide TreeReady, ContentsBroken, FrozenUpTo, Rooted, Lists;
      TreeIsFrozen(w, w0, w1, Contents(), d, fd, order, done, memo);
    }
  }

  lemma StoreFileInTwo(w: World, file: File, versionId: string)
    ensures State.StoreVersion(State.InsertFile(w, file), w.next, versionId) ==
            State.StoreFile(w, file.(versionId := versionId, versionNum := file.versionNum + 1))
  {
    var stored := file.(versionId := versionId, versionNum := file.versionNum + 1);
    assert w.files[w.next := file][w.next := stored] == w.files[w.next := stored];
  }

  lemma NoneLeft(found: set<Id>)
    ensures found - found == {} && found - {} == found
  {
  }

  lemma OneLess(found: set<Id>, rest: set<Id>, x: Id)
    requires x in rest && rest <= found
    ensures x in found && x !in found - rest && found - (rest - {x}) == (found - rest) + {x}
  {
  }
}
