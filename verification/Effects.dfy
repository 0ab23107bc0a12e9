/** What each route on records does, told from the collections before and after it: which records are
    there, what they say, and that nothing else has changed. */
module Effects {
  import opened Types
  import opened Nested
  import opened Forest
  import opened FolderFreeze
  import opened State
  import opened Invariant

  /** Of the records of `m` exactly those in `gone` are not in `m'`; the others are as they were. */
  ghost predicate Loses<T(!new)>(m: map<Id, T>, m': map<Id, T>, gone: iset<Id>) {
    (forall k :: k in m' <==> k in m && k !in gone) && forall k :: k in m' ==> m'[k] == m[k]
  }

  /** `m'` has one record more, under an id not used before. */
  ghost predicate Gains<T(!new)>(m: map<Id, T>, m': map<Id, T>, id: Id, record: T) {
    id !in m && (forall k :: k in m' <==> k in m || k == id) && m'.Keys >= {id} && m'[id] == record &&
    forall k :: k in m ==> m'[k] == m[k]
  }

  /** Only the record under `id` says something else. */
  ghost predicate Changes<T(!new)>(m: map<Id, T>, m': map<Id, T>, id: Id, record: T) {
    id in m && m'.Keys == m.Keys && m'[id] == record && forall k :: k in m && k != id ==> m'[k] == m[k]
  }

  /** The id was handed out in between. */
  predicate Issues(w: World, w': World, id: Id) {
    w.next <= id < w'.next
  }

  // ----- Making working records -----

  /** A dataset under a new id, owned through one authorization record that names nobody. */
  lemma CreateDatasetMakes(w: World, name: string)
    requires Orderly(w)
    ensures var (w', r) := CreateDataset(w, name);
            && r.Ok? && Issues(w, w', r.value) && Gains(w.datasets, w'.datasets, r.value, Dataset(name))
            && (exists a :: Gains(w.auths, w'.auths, a, Authorization(r.value, Owner, [], [])))
            && w' == w.(datasets := w'.datasets, auths := w'.auths, next := w'.next)
  {
    var (w', r) := CreateDataset(w, name);
    assert Gains(w.auths, w'.auths, w.next + 1, Authorization(r.value, Owner, [], []));
  }

  /** A folder under a new id, with the name and the parent asked for. */
  lemma AddFolderMakes(w: World, d: Id, name: string, parent: Option<Id>)
    requires Orderly(w)
    ensures var (w', r) := AddFolder(w, d, name, parent);
            && (r == Err(404) <==> d !in w.datasets)
            && (r == Err(400) <==> d in w.datasets && parent.Some? && parent.value !in w.folders)
            && (r.Err? ==> r.status in {404, 400} && w' == w)
            && (r.Ok? ==> Issues(w, w', r.value) && Gains(w.folders, w'.folders, r.value, Folder(name, d, parent, None)) &&
                          w' == w.(folders := w'.folders, next := w'.next))
  {
  }

  /** A new name if there is one, a new parent if there is one and it exists; dataset and all else stay. */
  lemma PatchFolderSets(w: World, d: Id, f: Id, name: Option<string>, parent: Option<Id>)
    ensures var (w', r) := PatchFolder(w, d, f, name, parent);
            && (r == if d in w.datasets && f in w.folders then Ok(f) else Err(404))
            && (r.Err? ==> w' == w)
            && (r.Ok? ==>
                  Changes(w.folders, w'.folders, f,
                          Folder(if name.Some? then name.value else w.folders[f].name, w.folders[f].dataset,
                                 if parent.Some? && parent.value in w.folders then parent else w.folders[f].parent,
                                 w.folders[f].origin)) &&
                  w' == w.(folders := w'.folders))
  {
  }

  /** An uploaded file: its record as version 1, one version record, its bytes under its own id. */
  lemma UploadMakes(w: World, d: Id, name: string, contentType: string, folder: Option<Id>, versionId: string)
    requires Orderly(w)
    ensures var (w', r) := Upload(w, d, name, contentType, folder, versionId);
            && (r.Err? <==> d !in w.datasets || (folder.Some? && folder.value !in w.folders))
            && (r.Err? ==> r == Err(404) && w' == w)
            && (r.Ok? ==>
                  && Issues(w, w', r.value)
                  && Gains(w.files, w'.files, r.value, File(name, contentType, d, folder, Minio, versionId, 1, None))
                  && (exists v :: Gains(w.versions, w'.versions, v, FileVersion(r.value, versionId, 1)))
                  && w'.objects == w.objects + {r.value}
                  && w' == w.(files := w'.files, versions := w'.versions, objects := w'.objects, next := w'.next))
  {
    var (w', r) := Upload(w, d, name, contentType, folder, versionId);
    if r.Ok? {
      assert Gains(w.versions, w'.versions, w.next + 1, FileVersion(r.value, versionId, 1));
    }
  }

  /** A local file: its record without a version, no bytes. */
  lemma UploadLocalMakes(w: World, d: Id, name: string, contentType: string, folder: Option<Id>, cleared: bool)
    requires Orderly(w)
    ensures var (w', r) := UploadLocal(w, d, name, contentType, folder, cleared);
            && (r == Err(500) <==> d in w.datasets && !cleared)
            && (r == Err(404) <==> d !in w.datasets || (cleared && folder.Some? && folder.value !in w.folders))
            && (r.Err? ==> r.status in {404, 500} && w' == w)
            && (r.Ok? ==> Issues(w, w', r.value) &&
                          Gains(w.files, w'.files, r.value, File(name, contentType, d, folder, Local, "N/A", 0, None)) &&
                          w' == w.(files := w'.files, next := w'.next))
  {
  }

  /** A new version: the number goes up by one, the record and one new version record carry its id. */
  lemma UpdateFileSets(w: World, f: Id, name: string, contentType: string, versionId: string)
    requires Orderly(w)
    ensures var (w', r) := UpdateFile(w, f, name, contentType, versionId);
            && (r == Err(404) <==> f !in w.files)
            && (r == Err(400) <==> f in w.files && (name != w.files[f].name || contentType != w.files[f].contentType))
            && (r.Err? ==> r.status in {404, 400} && w' == w)
            && (r.Ok? ==>
                  var file, num := w.files[f], w.files[f].versionNum + 1;
                  && r.value == f
                  && Changes(w.files, w'.files, f, File(file.name, file.contentType, file.dataset, file.folder, file.storage,
                                                        versionId, num, file.origin))
                  && (exists v :: Gains(w.versions, w'.versions, v, FileVersion(f, versionId, num)))
                  && w'.objects == w.objects + {f} && w.next <= w'.next
                  && w' == w.(files := w'.files, versions := w'.versions, objects := w'.objects, next := w'.next))
  {
    var (w', r) := UpdateFile(w, f, name, contentType, versionId);
    if r.Ok? {
      assert Gains(w.versions, w'.versions, w.next, FileVersion(f, versionId, w.files[f].versionNum + 1));
    }
  }

  // ----- Metadata -----

  /** `m` is an entry on the resource `id` under the definition, by the extractor or, without one, by the user
      who asks, through whatever. */
  predicate IsOlder(w: World, id: Id, entry: MetadataIn, m: Id) {
    && m in w.metadata && w.metadata[m].owner.id == id && w.metadata[m].definition == entry.definition
    && (entry.agent.listener.Some? ==> w.metadata[m].agent.listener == entry.agent.listener)
    && (entry.agent.listener.None? ==> w.metadata[m].agent.creator == entry.agent.creator)
  }

  /** One entry on the dataset, as sent; a definition in use, then contents that are not valid refuse it. */
  lemma AddMetadataMakes(w: World, d: Id, entry: MetadataIn)
    requires Orderly(w)
    ensures var (w', r) := AddMetadata(w, d, entry);
            var used := entry.definition.Some? && exists m :: IsOlder(w, d, entry, m);
            && (r == Err(404) <==> d !in w.datasets)
            && (r == Err(409) <==> d in w.datasets && used)
            && (r == Err(400) <==> d in w.datasets && !used && !entry.accepted)
            && (r.Err? ==> r.status in {404, 409, 400} && w' == w)
            && (r.Ok? ==> Issues(w, w', r.value) &&
                          Gains(w.metadata, w'.metadata, r.value,
                                Doc(Ref(Datasets, d), entry.definition, entry.agent, entry.version, entry.body, None)) &&
                          w' == w.(metadata := w'.metadata, next := w'.next))
  {
    OlderAreFound(w, d, entry, None);
    EntryMade(w, Doc(Ref(Datasets, d), entry.definition, entry.agent, entry.version, entry.body, None));
    hide Orderly, MetadataFor, IsOlder, InsertMetadata, Gains;
  }

  /** `pick` answers the query for an older entry. */
  ghost predicate FindsOlder(w: World, id: Id, entry: MetadataIn, pick: Option<Id>) {
    if pick.Some? then IsOlder(w, id, entry, pick.value) else forall m :: !IsOlder(w, id, entry, m)
  }

  lemma OlderAreFound(w: World, id: Id, entry: MetadataIn, pick: Option<Id>)
    ensures FindsOlder(w, id, entry, pick) <==> Answers(pick, MetadataFor(w, id, entry))
  {
    assert forall m :: m in MetadataFor(w, id, entry) <==> IsOlder(w, id, entry, m);
    assert MetadataFor(w, id, entry) == {} <==> forall m :: m !in MetadataFor(w, id, entry);
  }

  predicate NoRecordOf(versions: map<Id, FileVersion>, f: Id, num: int) {
    forall v :: v in versions ==> !(versions[v].file == f && versions[v].num == num)
  }

  lemma RecordsFound(versions: map<Id, FileVersion>, f: Id, num: int)
    ensures HasRecord(versions, f, num) <==> !NoRecordOf(versions, f, num)
  {
    assert forall v :: Records(versions, v, f, num) <==>
             v in versions && versions[v].file == f && versions[v].num == num;
  }

  /** The version a request asks for, and the one it is stored under: the current one if none or none that
      is positive is sent. */
  function Asked(w: World, f: Id, entry: MetadataIn): int
    requires f in w.files
  {
    if entry.version.Some? then entry.version.value else w.files[f].versionNum
  }

  function StoredUnder(w: World, f: Id, entry: MetadataIn): int
    requires f in w.files
  {
    if entry.version.Some? && entry.version.value > 0 then entry.version.value else w.files[f].versionNum
  }

  /** The same on a file, where an older entry refuses it only if it is of the version asked for; then a
      positive version must be on record and an extractor known. */
  lemma AddFileMetadataMakes(w: World, f: Id, entry: MetadataIn, pick: Option<Id>)
    requires Orderly(w) && f in w.files && (entry.definition.Some? ==> FindsOlder(w, f, entry, pick))
    ensures entry.definition.Some? ==> Answers(pick, MetadataFor(w, f, entry))
    ensures var (w', r) := AddFileMetadata(w, f, entry, pick);
            var asked := Asked(w, f, entry);
            var used := entry.definition.Some? && pick.Some? && w.metadata[pick.value].version == Some(asked);
            var unknown := (asked > 0 && NoRecordOf(w.versions, f, asked)) ||
                           (entry.agent.listener.Some? && !entry.registered);
            && (r == Err(409) <==> used)
            && (r == Err(400) <==> !used && !entry.accepted)
            && (r == Err(404) <==> !used && entry.accepted && unknown)
            && (r.Err? ==> r.status in {404, 409, 400} && w' == w)
            && (r.Ok? ==> Issues(w, w', r.value) &&
                          Gains(w.metadata, w'.metadata, r.value,
                                Doc(Ref(Files, f), entry.definition, entry.agent, Some(StoredUnder(w, f, entry)),
                                    entry.body, None)) &&
                          w' == w.(metadata := w'.metadata, next := w'.next))
  {
    OlderAreFound(w, f, entry, pick);
    RecordsFound(w.versions, f, Asked(w, f, entry));
    EntryMade(w, FileEntry(w.files[f], f, entry));
    hide Orderly, HasRecord, NoRecordOf, MetadataFor, FindsOlder, InsertMetadata, Gains;
  }

  lemma EntryMade(w: World, doc: Doc)
    requires Orderly(w)
    ensures var w' := InsertMetadata(w, doc);
            Issues(w, w', w.next) && Gains(w.metadata, w'.metadata, w.next, doc) &&
            w' == w.(metadata := w'.metadata, next := w'.next)
  {
  }

  lemma MissingFileTakesNoMetadata(w: World, f: Id, entry: MetadataIn, pick: Option<Id>)
    requires f !in w.files
    ensures AddFileMetadata(w, f, entry, pick) == (w, Err(404))
  {
  }

  /** Only the contents of the entry change, and every path reads the patch or the old contents. */
  lemma PatchMetadataSets(w: World, m: Id, patch: Json, accepted: bool)
    requires patch.Obj?
    ensures var (w', r) := PatchMetadata(w, m, patch, accepted);
            && (r == Err(404) <==> m !in w.metadata)
            && (r == Err(500) <==> m in w.metadata && !Accepts(w.metadata[m].body, patch))
            && (r == Err(400) <==> m in w.metadata && Accepts(w.metadata[m].body, patch) && !accepted)
            && (r.Err? ==> r.status in {404, 500, 400} && w' == w)
            && (r.Ok? ==>
                  var doc := w.metadata[m];
                  && r.value == m && m in w'.metadata && w' == w.(metadata := w'.metadata)
                  && Changes(w.metadata, w'.metadata, m,
                             Doc(doc.owner, doc.definition, doc.agent, doc.version, w'.metadata[m].body, doc.origin))
                  && forall path :: LeafAt(w'.metadata[m].body, path) ==
                                    if Covered(patch, path) then LeafAt(patch, path) else LeafAt(doc.body, path))
  {
    if m in w.metadata && Accepts(w.metadata[m].body, patch) {
      forall path ensures LeafAt(Update(w.metadata[m].body, patch), path) ==
                          if Covered(patch, path) then LeafAt(patch, path) else LeafAt(w.metadata[m].body, path) {
        UpdateReadsPatchElseOriginal(w.metadata[m].body, patch, path);
      }
    }
  }

  // ----- Removing working records -----

  /** The file, the metadata of anything with its id and, of a stored one, its version records and its bytes
      go, whoever shares them. */
  lemma DeleteFileTakes(w: World, f: Id)
    ensures var (w', r) := DeleteFile(w, f);
            && (r == if f in w.files then Ok(f) else Err(404))
            && (r.Err? ==> w' == w)
            && (r.Ok? ==> FileTaken(w, w', f, w.files[f].storage == Minio))
  {
    if f in w.files {
      if w.files[f].storage == Minio {
        StoredFileTaken(w, f);
      } else {
        LocalFileTaken(w, f);
      }
      hide FileTaken, DropStoredFile, DropLocalFile;
    }
  }

  /** What a file's deletion takes; only a stored file's takes version records and bytes. */
  ghost predicate FileTaken(w: World, w': World, f: Id, stored: bool) {
    && Loses(w.files, w'.files, iset{f})
    && Loses(w.metadata, w'.metadata, iset m | m in w.metadata && w.metadata[m].owner.id == f)
    && Loses(w.versions, w'.versions, iset v | v in w.versions && stored && w.versions[v].file == f)
    && w'.objects == w.objects - (if stored then {f} else {})
    && w' == w.(files := w'.files, metadata := w'.metadata, versions := w'.versions, objects := w'.objects)
  }

  lemma StoredFileTaken(w: World, f: Id)
    ensures FileTaken(w, DropStoredFile(w, f), f, true)
  {
  }

  lemma LocalFileTaken(w: World, f: Id)
    ensures FileTaken(w, DropLocalFile(w, f), f, false)
  {
  }

  /** `path` leads from folder `x` up to folder `f` over parent links of folders of dataset `d`. */
  predicate LeadsUp(fs: Folders, d: Id, path: seq<Id>, x: Id, f: Id) {
    && path != [] && path[0] == x && path[|path| - 1] == f && (forall i :: 0 <= i < |path| ==> path[i] in fs)
    && forall i :: 0 <= i < |path| - 1 ==> fs[path[i]].dataset == d && fs[path[i]].parent == Some(path[i + 1])
  }

  /** `x` is `f` or is below it by parent links of folders of dataset `d`. */
  ghost predicate Below(fs: Folders, d: Id, x: Id, f: Id) {
    exists path :: LeadsUp(fs, d, path, x, f)
  }

  lemma {:induction false} ClimbLeadsUp(fs: Folders, d: Id, x: Id, f: Id, n: nat)
    requires f in fs && Climb(Seen(fs, d), x, n) == Some(f)
    ensures Below(fs, d, x, f)
    decreases n
  {
    if n == 0 {
      assert LeadsUp(fs, d, [x], x, f);
    } else {
      var p := ParentOf(Seen(fs, d), x);
      ClimbLeadsUp(fs, d, p, f, n - 1);
      var path :| LeadsUp(fs, d, path, p, f);
      assert LeadsUp(fs, d, [x] + path, x, f);
    }
  }

  lemma {:induction false} PathIsClimbed(fs: Folders, d: Id, path: seq<Id>, x: Id, f: Id)
    requires LeadsUp(fs, d, path, x, f)
    ensures Climb(Seen(fs, d), x, |path| - 1) == Some(f)
    decreases |path|
  {
    if |path| > 1 {
      PathIsClimbed(fs, d, path[1..], path[1], f);
      assert HasParent(Seen(fs, d), x) && ParentOf(Seen(fs, d), x) == path[1];
    }
  }

  lemma BelowIffReached(fs: Folders, d: Id, f: Id)
    requires f in fs
    ensures forall x :: x in ReachedFrom(fs, d, f) <==> Below(fs, d, x, f)
  {
    forall x ensures x in ReachedFrom(fs, d, f) <==> Below(fs, d, x, f) {
      if x in ReachedFrom(fs, d, f) {
        var n: nat :| Climb(Seen(fs, d), x, n) == Some(f);
        ClimbLeadsUp(fs, d, x, f, n);
      }
      if Below(fs, d, x, f) {
        var path :| LeadsUp(fs, d, path, x, f);
        PathIsClimbed(fs, d, path, x, f);
      }
    }
  }

  /** File `x` lies in `f` or in a folder below. */
  ghost predicate LiesBelow(w: World, d: Id, x: Id, f: Id) {
    x in w.files && w.files[x].folder.Some? && Below(w.folders, d, w.files[x].folder.value, f)
  }

  ghost function FoldersBelow(fs: Folders, d: Id, f: Id): iset<Id> {
    iset x | Below(fs, d, x, f)
  }

  ghost function FilesBelow(w: World, d: Id, f: Id): iset<Id> {
    iset x | LiesBelow(w, d, x, f)
  }

  /** No frozen file shares the bytes of `o`. */
  predicate NotShared(frozenFiles: map<Id, File>, o: Id) {
    forall x :: x in frozenFiles ==> frozenFiles[x].origin != Some(o)
  }

  ghost function VersionsOf(versions: map<Id, FileVersion>, files: iset<Id>): iset<Id> {
    iset v | v in versions && versions[v].file in files
  }

  ghost function EntriesOf(metadata: map<Id, Doc>, files: iset<Id>): iset<Id> {
    iset m | m in metadata && metadata[m].owner.collection == Files && metadata[m].owner.id in files
  }

  /** Of the working files exactly those in `gone` are gone, with their version records, their metadata and the
      bytes no frozen file shares. */
  ghost predicate FilesTaken(w: World, w': World, gone: iset<Id>) {
    && Loses(w.files, w'.files, gone)
    && Loses(w.versions, w'.versions, VersionsOf(w.versions, gone))
    && Loses(w.metadata, w'.metadata, EntriesOf(w.metadata, gone))
    && forall o: Id :: o in w'.objects <==> o in w.objects && !(o in gone && NotShared(w.frozenFiles, o))
  }

  lemma FilesAtOnce(w: World, doomed: set<Id>, gone: iset<Id>)
    requires forall x :: x in doomed <==> x in gone
    ensures FilesTaken(w, DropFiles(w, doomed), gone)
  {
    forall o ensures HasFrozenCopy(w.frozenFiles, o) <==> !NotShared(w.frozenFiles, o) {
    }
    hide HasFrozenCopy, NotShared;
  }

  /** Exactly the folder and the folders below it by links within the dataset of the route are gone, with
      exactly the files in them; a file in no folder, or in another one, is left. */
  ghost predicate FolderTaken(w: World, w': World, d: Id, f: Id) {
    && Loses(w.folders, w'.folders, FoldersBelow(w.folders, d, f)) && FilesTaken(w, w', FilesBelow(w, d, f))
    && w' == w.(folders := w'.folders, files := w'.files, versions := w'.versions,
                metadata := w'.metadata, objects := w'.objects)
  }

  lemma DeleteFolderTakes(w: World, d: Id, f: Id)
    ensures var (w', r) := DeleteFolder(w, d, f);
            && (r == if d in w.datasets && f in w.folders then Ok(f) else Err(404))
            && (r.Err? ==> w' == w) && (r.Ok? ==> FolderTaken(w, w', d, f))
  {
    if d in w.datasets && f in w.folders {
      BelowIffReached(w.folders, d, f);
      FoldersAtOnce(w, d, f, DoomedBy(w, d, f));
      hide FolderTaken, DropFolders, ReachedFrom, Below;
    }
  }

  lemma FoldersAtOnce(w: World, d: Id, f: Id, doomed: set<Id>)
    requires forall x :: x in doomed <==> Below(w.folders, d, x, f)
    ensures FolderTaken(w, DropFolders(w, doomed), d, f)
  {
    hide Below;
    forall x ensures x in FilesIn(w.files, doomed) <==> LiesBelow(w, d, x, f) {
    }
    var gone := FilesBelow(w, d, f);
    FilesAtOnce(w, FilesIn(w.files, doomed), gone);
    var w', w1 := DropFolders(w, doomed), DropFiles(w, FilesIn(w.files, doomed));
    assert w' == w1.(folders := w.folders - doomed);
    SameFilesTaken(w, w1, w', gone);
    assert Loses(w.folders, w'.folders, FoldersBelow(w.folders, d, f));
    hide LiesBelow, FilesIn, FilesTaken, Loses, FoldersBelow, FilesBelow, DropFiles;
  }

  lemma SameFilesTaken(w: World, w1: World, w': World, gone: iset<Id>)
    requires FilesTaken(w, w1, gone) && w'.files == w1.files && w'.versions == w1.versions
    requires w'.metadata == w1.metadata && w'.objects == w1.objects
    ensures FilesTaken(w, w', gone)
  {
    hide Loses, NotShared;
  }

  // ----- Removing releases -----

  /** Some stored frozen file of the releases `gone`, and no other frozen file, has its bytes under `o`. */
  ghost predicate LastShared(w: World, gone: set<Id>, o: Id) {
    && (exists x :: x in w.frozenFiles && w.frozenFiles[x].dataset in gone && w.frozenFiles[x].storage == Minio &&
                    w.frozenFiles[x].origin == Some(o))
    && forall x :: x in w.frozenFiles && w.frozenFiles[x].origin == Some(o) ==> w.frozenFiles[x].dataset in gone
  }

  /** Metadata of a release of `gone` or of one of its files; of a local file whatever has its id. */
  predicate Describes(w: World, gone: set<Id>, owner: Ref) {
    || (owner.collection == Datasets && owner.id in gone)
    || (owner.id in w.frozenFiles && w.frozenFiles[owner.id].dataset in gone &&
        (owner.collection == Files || w.frozenFiles[owner.id].storage == Local))
  }

  /** What is in the releases `gone` is gone, apart from their own records and authorizations. */
  ghost predicate ReleasesEmptied(w: World, w': World, gone: set<Id>) {
    && Loses(w.frozenFolders, w'.frozenFolders, iset k | k in w.frozenFolders && w.frozenFolders[k].dataset in gone)
    && Loses(w.frozenFiles, w'.frozenFiles, iset x | x in w.frozenFiles && w.frozenFiles[x].dataset in gone)
    && Loses(w.frozenMetadata, w'.frozenMetadata,
             iset m | m in w.frozenMetadata && Describes(w, gone, w.frozenMetadata[m].owner))
    && w'.frozenVisConfigs == w.frozenVisConfigs && w'.frozenVisData == w.frozenVisData
  }

  ghost predicate LosesRoles(w: World, w': World, gone: set<Id>) {
    Loses(w.auths, w'.auths, iset a | a in w.auths && w.auths[a].dataset in gone)
  }

  lemma EmptiedAtOnce(w: World, gone: set<Id>)
    ensures ReleasesEmptied(w, DropReleases(w, gone), gone) && LosesRoles(w, DropReleases(w, gone), gone)
    ensures forall o: Id :: o in DropReleases(w, gone).objects <==>
              o in w.objects && !(o !in w.files && LastShared(w, gone, o))
  {
    var w' := DropReleases(w, gone);
    forall x ensures x in FilesOf(w.frozenFiles, gone) <==> x in w.frozenFiles && w.frozenFiles[x].dataset in gone {
    }
    EmptiedMetadata(w, gone);
    forall o: Id ensures Orphaned(w, FilesOf(w.frozenFiles, gone), o) <==> o !in w.files && LastShared(w, gone, o) {
      OrphanedIsLastShared(w, gone, o);
    }
    hide Orphaned, LastShared, FilesOf, BelongsTo, Describes;
  }

  lemma EmptiedMetadata(w: World, gone: set<Id>)
    ensures Loses(w.frozenMetadata, DropReleases(w, gone).frozenMetadata,
                  iset m | m in w.frozenMetadata && Describes(w, gone, w.frozenMetadata[m].owner))
  {
  }

  lemma OrphanedIsLastShared(w: World, gone: set<Id>, o: Id)
    ensures Orphaned(w, FilesOf(w.frozenFiles, gone), o) <==> o !in w.files && LastShared(w, gone, o)
  {
    var doomed := FilesOf(w.frozenFiles, gone);
    assert HasFrozenCopy(w.frozenFiles - doomed, o) <==>
           exists x :: x in w.frozenFiles && w.frozenFiles[x].origin == Some(o) && w.frozenFiles[x].dataset !in gone by {
      if x :| x in w.frozenFiles && w.frozenFiles[x].origin == Some(o) && w.frozenFiles[x].dataset !in gone {
        assert x in w.frozenFiles - doomed;
      }
    }
    assert forall x :: x in doomed <==> x in w.frozenFiles && w.frozenFiles[x].dataset in gone;
  }

  /** A version deleted: its release is emptied and marked, under its old name, dataset and number; no other
      release record changes. */
  lemma DeleteVersionTakes(w: World, fd: Id)
    requires fd in w.releases
    ensures var w', release := SoftDelete(w, fd), w.releases[fd];
            && Changes(w.releases, w'.releases, fd, Release(release.name, release.origin, release.number, true))
            && ReleasesEmptied(w, w', {fd}) && LosesRoles(w, w', {fd})
            && (forall o: Id :: o in w'.objects <==> o in w.objects && !(o !in w.files && LastShared(w, {fd}, o)))
            && w' == w.(releases := w'.releases, frozenFolders := w'.frozenFolders, frozenFiles := w'.frozenFiles,
                        frozenMetadata := w'.frozenMetadata, auths := w'.auths, objects := w'.objects)
  {
    EmptiedAtOnce(w, {fd});
    hide LastShared, Describes;
  }

  ghost function FilesOfDataset(w: World, d: Id): iset<Id> {
    iset f | f in w.files && w.files[f].dataset == d
  }

  ghost function FoldersOfDataset(w: World, d: Id): iset<Id> {
    iset k | k in w.folders && w.folders[k].dataset == d
  }

  /** The entries on the dataset and on its files. */
  ghost function EntriesIn(w: World, d: Id): iset<Id> {
    (iset m | m in w.metadata && w.metadata[m].owner == Ref(Datasets, d)) + EntriesOf(w.metadata, FilesOfDataset(w, d))
  }

  /** The working dataset is gone with its metadata, its folders and its files. */
  ghost predicate WorkingEmptied(w: World, w': World, d: Id) {
    && Loses(w.datasets, w'.datasets, iset{d})
    && Loses(w.folders, w'.folders, FoldersOfDataset(w, d))
    && Loses(w.files, w'.files, FilesOfDataset(w, d))
    && Loses(w.versions, w'.versions, VersionsOf(w.versions, FilesOfDataset(w, d)))
    && Loses(w.metadata, w'.metadata, EntriesIn(w, d))
    && w'.visConfigs == w.visConfigs && w'.visData == w.visData
  }

  lemma WorkingAtOnce(w: World, d: Id)
    ensures WorkingEmptied(w, DropDataset(w, d), d) && LosesRoles(w, DropDataset(w, d), {d})
    ensures FrozenSame(w, DropDataset(w, d)) && DropDataset(w, d).next == w.next
    ensures forall o: Id :: o in DropDataset(w, d).objects <==>
              o in w.objects && !(o in FilesOfDataset(w, d) && NotShared(w.frozenFiles, o))
  {
    var gone := FilesOfDataset(w, d);
    assert forall f :: f in FilesOf(w.files, {d}) <==> f in gone;
    var w1, w' := DropWorkingDocs(w, d), DropDataset(w, d);
    FilesAtOnce(w1, FilesOf(w.files, {d}), gone);
    SameFilesTaken(w1, DropFiles(w1, FilesOf(w.files, {d})), w', gone);
    MetadataInTwo(w, w1, w', d);
    assert Loses(w.folders, w'.folders, FoldersOfDataset(w, d));
    assert Loses(w.datasets, w'.datasets, iset{d}) && LosesRoles(w, w', {d});
    hide FilesOf, DropFiles, NotShared, Loses, FilesOfDataset, FoldersOfDataset, VersionsOf, EntriesOf, EntriesIn;
  }

  lemma MetadataInTwo(w: World, w1: World, w': World, d: Id)
    requires Loses(w.metadata, w1.metadata, iset m | m in w.metadata && w.metadata[m].owner == Ref(Datasets, d))
    requires Loses(w1.metadata, w'.metadata, EntriesOf(w1.metadata, FilesOfDataset(w, d)))
    ensures Loses(w.metadata, w'.metadata, EntriesIn(w, d))
  {
    hide FilesOfDataset;
  }

  /** The releases of dataset `d`. */
  function ItsReleases(w: World, d: Id): set<Id> {
    set fd | fd in w.releases && w.releases[fd].origin == d
  }

  /** All frozen files with bytes under `o` belong to the releases `gone`. */
  predicate SharedInside(w: World, gone: set<Id>, o: Id) {
    forall x :: x in w.frozenFiles && w.frozenFiles[x].origin == Some(o) ==> w.frozenFiles[x].dataset in gone
  }

  /** A dataset deleted: everything in it and in its releases goes, release records and roles included, and of
      the bytes exactly those that only its files and its releases have. */
  ghost predicate DatasetTaken(w: World, w': World, d: Id) {
    var gone := ItsReleases(w, d);
    && WorkingEmptied(w, w', d) && ReleasesEmptied(w, w', gone) && LosesRoles(w, w', gone + {d})
    && Loses(w.releases, w'.releases, iset fd | fd in gone) && w'.next == w.next
    && forall o: Id :: o in w'.objects <==>
         o in w.objects && !(o in FilesOfDataset(w, d) && SharedInside(w, gone, o)) && !(o !in w.files && LastShared(w, gone, o))
  }

  lemma DeleteDatasetTakes(w: World, d: Id)
    ensures var (w', r) := DeleteDataset(w, d);
            && (r == if d in w.datasets then Ok(d) else Err(404))
            && (r.Err? ==> w' == w) && (r.Ok? ==> DatasetTaken(w, w', d))
  {
    if d in w.datasets {
      var gone := ItsReleases(w, d);
      assert ReleasesOf(w.releases, d) == gone;
      var w1 := DropReleases(w, gone).(releases := w.releases - gone);
      EmptiedAtOnce(w, gone);
      WorkingAtOnce(w1, d);
      SharedLeft(w, w1, gone);
      TakenInTwo(w, w1, DropDataset(w1, d), d);
    }
  }

  lemma SharedLeft(w: World, w1: World, gone: set<Id>)
    requires Loses(w.frozenFiles, w1.frozenFiles, iset x | x in w.frozenFiles && w.frozenFiles[x].dataset in gone)
    ensures forall o: Id :: NotShared(w1.frozenFiles, o) <==> SharedInside(w, gone, o)
  {
  }

  lemma TakenInTwo(w: World, w1: World, w': World, d: Id)
    requires ReleasesEmptied(w, w1, ItsReleases(w, d)) && LosesRoles(w, w1, ItsReleases(w, d))
    requires WorkingSame(w, w1) && w1.releases == w.releases - ItsReleases(w, d) && w1.next == w.next
    requires WorkingEmptied(w1, w', d) && LosesRoles(w1, w', {d}) && FrozenSame(w1, w') && w'.next == w1.next
    requires forall o: Id :: o in w1.objects <==> o in w.objects && !(o !in w.files && LastShared(w, ItsReleases(w, d), o))
    requires forall o: Id :: o in w'.objects <==> o in w1.objects && !(o in FilesOfDataset(w1, d) && NotShared(w1.frozenFiles, o))
    requires forall o: Id :: NotShared(w1.frozenFiles, o) <==> SharedInside(w, ItsReleases(w, d), o)
    ensures DatasetTaken(w, w', d)
  {
    var gone := ItsReleases(w, d);
    assert FilesOfDataset(w1, d) == FilesOfDataset(w, d);
    RolesInTwo(w, w1, w', gone, d);
    SameWorkingEmptied(w, w1, w', d);
    assert Loses(w.releases, w'.releases, iset fd | fd in gone);
    hide LastShared, NotShared, SharedInside, Describes, FilesOfDataset, WorkingEmptied, Loses, ItsReleases;
    EmptiedStays(w, w1, w', gone);
  }

  lemma RolesInTwo(w: World, w1: World, w': World, gone: set<Id>, d: Id)
    requires LosesRoles(w, w1, gone) && LosesRoles(w1, w', {d})
    ensures LosesRoles(w, w', gone + {d})
  {
  }

  lemma SameWorkingEmptied(w: World, w1: World, w': World, d: Id)
    requires WorkingSame(w, w1) && WorkingEmptied(w1, w', d)
    ensures WorkingEmptied(w, w', d)
  {
    assert FilesOfDataset(w1, d) == FilesOfDataset(w, d) && FoldersOfDataset(w1, d) == FoldersOfDataset(w, d);
    assert EntriesIn(w1, d) == EntriesIn(w, d);
    hide FilesOfDataset, FoldersOfDataset, EntriesIn, Loses;
  }

  lemma EmptiedStays(w: World, w1: World, w': World, gone: set<Id>)
    requires ReleasesEmptied(w, w1, gone) && FrozenSame(w1, w')
    ensures ReleasesEmptied(w, w', gone)
  {
    hide Loses;
  }

  // ----- Freezing -----

  /** `k` is document `o` of another owner, `to`, and says what `o` says. */
  predicate SameDoc(src: map<Id, Doc>, dst: map<Id, Doc>, to: Ref, o: Id, k: Id) {
    && o in src && k in dst && dst[k].owner == to && dst[k].origin == Some(o)
    && dst[k].definition == src[o].definition && dst[k].agent == src[o].agent
    && dst[k].version == src[o].version && dst[k].body == src[o].body
  }

  /** The documents of `to` are those of `from`, each once. */
  ghost predicate DocsCopied(src: map<Id, Doc>, dst: map<Id, Doc>, from: Ref, to: Ref) {
    && (forall k :: k in dst && dst[k].owner == to ==> exists o :: SameDoc(src, dst, to, o, k) && src[o].owner == from)
    && (forall o :: o in src && src[o].owner == from ==> exists k :: SameDoc(src, dst, to, o, k))
    && forall o, k, l :: SameDoc(src, dst, to, o, k) && SameDoc(src, dst, to, o, l) ==> k == l
  }

  /** All documents of `to` are those of `from`, each once: metadata, visualization configs and their data. */
  ghost predicate ResourceMatches(w: World, w': World, from: Ref, to: Ref) {
    && DocsCopied(w.metadata, w'.frozenMetadata, from, to)
    && DocsCopied(w.visConfigs, w'.frozenVisConfigs, from, to)
    && forall o, c :: SameDoc(w.visConfigs, w'.frozenVisConfigs, to, o, c) ==>
         DocsCopied(w.visData, w'.frozenVisData, Ref(VisConfigs, o), Ref(VisConfigs, c))
  }

  /** `x` is file `o` in release `fd`, under the same name and with the same contents. */
  predicate SameFile(w: World, w': World, fd: Id, o: Id, x: Id) {
    && o in w.files && x in w'.frozenFiles && w'.frozenFiles[x].dataset == fd && w'.frozenFiles[x].origin == Some(o)
    && w'.frozenFiles[x].name == w.files[o].name && w'.frozenFiles[x].contentType == w.files[o].contentType
    && w'.frozenFiles[x].storage == w.files[o].storage && w'.frozenFiles[x].versionId == w.files[o].versionId
    && w'.frozenFiles[x].versionNum == w.files[o].versionNum
  }

  /** The files of release `fd` are those of dataset `d`, each once. */
  ghost predicate FilesMatch(w: World, d: Id, w': World, fd: Id) {
    && (forall x :: x in w'.frozenFiles && w'.frozenFiles[x].dataset == fd ==>
          exists o :: SameFile(w, w', fd, o, x) && w.files[o].dataset == d)
    && (forall o :: o in w.files && w.files[o].dataset == d ==>
          exists x :: SameFile(w, w', fd, o, x))
    && forall o, x, y :: SameFile(w, w', fd, o, x) && SameFile(w, w', fd, o, y) ==> x == y
  }

  /** `k` is folder `o` in release `fd`, under its name and below a folder that is its parent's, or no folder. */
  predicate SameFolder(w: World, w': World, fd: Id, o: Id, k: Id) {
    && o in w.folders && k in w'.frozenFolders && w'.frozenFolders[k].dataset == fd
    && w'.frozenFolders[k].origin == Some(o) && w'.frozenFolders[k].name == w.folders[o].name
    && match w.folders[o].parent
       case None => w'.frozenFolders[k].parent == None
       case Some(p) => w'.frozenFolders[k].parent.Some? && IsOf(w', fd, p, w'.frozenFolders[k].parent.value)
  }

  predicate IsOf(w': World, fd: Id, p: Id, k: Id) {
    k in w'.frozenFolders && w'.frozenFolders[k].dataset == fd && w'.frozenFolders[k].origin == Some(p)
  }

  /** The folders of release `fd` are working folders, and every one of dataset `d` is among them. */
  ghost predicate FoldersMatch(w: World, d: Id, w': World, fd: Id) {
    && (forall k :: k in w'.frozenFolders && w'.frozenFolders[k].dataset == fd ==> exists o :: SameFolder(w, w', fd, o, k))
    && (forall o :: o in w.folders && w.folders[o].dataset == d ==> exists k :: SameFolder(w, w', fd, o, k))
  }

  /** A file lies in the release where it lies in the dataset. */
  ghost predicate PlacesMatch(w: World, d: Id, w': World, fd: Id) {
    forall o, x :: SameFile(w, w', fd, o, x) && w.files[o].dataset == d ==>
      match w.files[o].folder
      case None => w'.frozenFiles[x].folder == None
      case Some(f) => f in w.folders && w.folders[f].dataset == d ==>
        w'.frozenFiles[x].folder.Some? && SameFolder(w, w', fd, f, w'.frozenFiles[x].folder.value)
  }

  lemma FolderCopiesMatch(w: World, d: Id, w': World, fd: Id)
    requires FoldersCopied(w, d, fd, w'.frozenFolders)
    ensures FoldersMatch(w, d, w', fd)
  {
    hide AboveDataset;
    forall k | k in w'.frozenFolders && w'.frozenFolders[k].dataset == fd
      ensures SameFolder(w, w', fd, w'.frozenFolders[k].origin.value, k)
    {
      assert IsCopy(w.folders, fd, w'.frozenFolders, k);
    }
    forall o | o in w.folders && w.folders[o].dataset == d ensures exists k :: SameFolder(w, w', fd, o, k) {
      OwnFolderIsAbove(w.folders, d, o);
      var k :| CopyOf(w'.frozenFolders, fd, k, o);
      assert SameFolder(w, w', fd, o, k);
    }
  }

  lemma PlacesStay(w: World, d: Id, w': World, fd: Id)
    requires FoldersCopied(w, d, fd, w'.frozenFolders)
    requires FilesCopied(w, d, fd, w'.frozenFolders, w'.frozenFiles, FilesOf(w.files, {d}))
    ensures PlacesMatch(w, d, w', fd)
  {
    FolderCopiesMatch(w, d, w', fd);
    hide AboveDataset, FoldersCopied;
    forall o, x | SameFile(w, w', fd, o, x) && w.files[o].dataset == d
      ensures IsFileCopy(w, d, fd, w'.frozenFolders, w'.frozenFiles[x], o)
    {
    }
    forall f | f in w.folders && w.folders[f].dataset == d ensures AboveDataset(w.folders, d, f) {
      OwnFolderIsAbove(w.folders, d, f);
    }
    forall f, k | CopyOf(w'.frozenFolders, fd, k, f) ensures SameFolder(w, w', fd, f, k) {
    }
    hide SameFolder, CopyOf, FoldersMatch, FilesCopied;
  }

  /** What a reader of the new release finds: a record under the dataset's name and the next number, not
      deleted; one owner record; the dataset's folders, under their names and in their places; its files, in
      theirs, and the documents of both, each once, saying what the working ones say. The working dataset, older releases and the object store are as before. */
  lemma FreezeMakes(w: World, d: Id, n: nat, w': World)
    requires Orderly(w) && Froze(w, d, n, w')
    ensures d in w.datasets && Gains(w.releases, w'.releases, w.next, Release(w.datasets[d].name, d, n, false))
    ensures Issues(w, w', w.next) && exists a :: Gains(w.auths, w'.auths, a, Authorization(w.next, Owner, [], []))
    ensures FoldersMatch(w, d, w', w.next) && FilesMatch(w, d, w', w.next) && PlacesMatch(w, d, w', w.next)
    ensures ResourceMatches(w, w', Ref(Datasets, d), Ref(Datasets, w.next))
    ensures forall o, x :: SameFile(w, w', w.next, o, x) ==> ResourceMatches(w, w', Ref(Files, o), Ref(Files, x))
    ensures w' == w.(releases := w'.releases, frozenFolders := w'.frozenFolders, frozenFiles := w'.frozenFiles,
                     frozenMetadata := w'.frozenMetadata, frozenVisConfigs := w'.frozenVisConfigs,
                     frozenVisData := w'.frozenVisData, auths := w'.auths, next := w'.next)
    ensures forall x :: x in w.frozenFiles ==> x in w'.frozenFiles && w'.frozenFiles[x] == w.frozenFiles[x]
  {
    ReleaseRecordMade(w, d, n, w');
    CopiesMatch(w, w', Ref(Datasets, d), Ref(Datasets, w.next));
    FolderCopiesMatch(w, d, w', w.next);
    FileCopiesMatch(w, d, w', w.next);
    PlacesStay(w, d, w', w.next);
    forall o, x | SameFile(w, w', w.next, o, x) ensures ResourceMatches(w, w', Ref(Files, o), Ref(Files, x)) {
      CopiesMatch(w, w', Ref(Files, o), Ref(Files, x));
    }
    hide ResourceMatches, FilesMatch, FoldersMatch, PlacesMatch, FoldersCopied, FilesCopied, ResourceCopied, Orderly;
  }

  lemma CopiesMatch(w: World, w': World, from: Ref, to: Ref)
    requires ResourceCopied(w, w', from, to)
    ensures ResourceMatches(w, w', from, to)
  {
    CopiesAreDocs(w.metadata, w'.frozenMetadata, from, to);
    CopiesAreDocs(w.visConfigs, w'.frozenVisConfigs, from, to);
    forall o, c | SameDoc(w.visConfigs, w'.frozenVisConfigs, to, o, c)
      ensures DocsCopied(w.visData, w'.frozenVisData, Ref(VisConfigs, o), Ref(VisConfigs, c))
    {
      CopiesAreDocs(w.visData, w'.frozenVisData, Ref(VisConfigs, o), Ref(VisConfigs, c));
    }
    hide DocsCopied, CopiedTo;
  }

  lemma ReleaseRecordMade(w: World, d: Id, n: nat, w': World)
    requires Orderly(w) && Froze(w, d, n, w')
    ensures d in w.datasets && Gains(w.releases, w'.releases, w.next, Release(w.datasets[d].name, d, n, false))
    ensures exists a :: Gains(w.auths, w'.auths, a, Authorization(w.next, Owner, [], []))
  {
    hide Snapshot, OnlyAdds;
    assert Gains(w.auths, w'.auths, w'.next - 1, Authorization(w.next, Owner, [], []));
  }

  lemma CopiesAreDocs(src: map<Id, Doc>, dst: map<Id, Doc>, from: Ref, to: Ref)
    requires CopiedTo(src, dst, from, to)
    ensures DocsCopied(src, dst, from, to)
  {
    forall k | k in dst && dst[k].owner == to ensures exists o :: SameDoc(src, dst, to, o, k) && src[o].owner == from {
      assert IsDocCopy(src, dst, from, to, k);
      assert SameDoc(src, dst, to, dst[k].origin.value, k);
    }
    forall o | o in src && src[o].owner == from ensures exists k :: SameDoc(src, dst, to, o, k) {
      var k :| IsDocCopyOf(dst, to, k, o);
      assert IsDocCopy(src, dst, from, to, k);
      assert SameDoc(src, dst, to, o, k);
    }
    forall o, k, l | SameDoc(src, dst, to, o, k) && SameDoc(src, dst, to, o, l)
      ensures k == l
    {
      assert IsDocCopyOf(dst, to, k, o) && IsDocCopyOf(dst, to, l, o);
    }
  }

  lemma FileCopiesMatch(w: World, d: Id, w': World, fd: Id)
    requires FilesCopied(w, d, fd, w'.frozenFolders, w'.frozenFiles, FilesOf(w.files, {d}))
    ensures FilesMatch(w, d, w', fd)
  {
    hide AboveDataset;
    forall x | x in w'.frozenFiles && w'.frozenFiles[x].dataset == fd
      ensures exists o :: SameFile(w, w', fd, o, x) && w.files[o].dataset == d
    {
      assert SameFile(w, w', fd, w'.frozenFiles[x].origin.value, x);
    }
    forall o | o in w.files && w.files[o].dataset == d
      ensures exists x :: SameFile(w, w', fd, o, x)
    {
      assert o in FilesOf(w.files, {d});
      var x :| FileCopyOf(w'.frozenFiles, fd, x, o);
      assert SameFile(w, w', fd, o, x);
    }
    forall o, x, y | SameFile(w, w', fd, o, x) && SameFile(w, w', fd, o, y) ensures x == y
    {
      assert FileCopyOf(w'.frozenFiles, fd, x, o) && FileCopyOf(w'.frozenFiles, fd, y, o);
    }
  }

  /** A freeze that ends with an exception: the release record and the documents of the dataset are in, no file and
      no authorization. */
  lemma BrokenFreezeMakes(w: World, d: Id, n: nat, w': World)
    requires Orderly(w) && FreezeBroke(w, d, n, w')
    ensures d in w.datasets && Gains(w.releases, w'.releases, w.next, Release(w.datasets[d].name, d, n, false))
    ensures ResourceMatches(w, w', Ref(Datasets, d), Ref(Datasets, w.next))
    ensures w' == w.(releases := w'.releases, frozenFolders := w'.frozenFolders, frozenMetadata := w'.frozenMetadata,
                     frozenVisConfigs := w'.frozenVisConfigs, frozenVisData := w'.frozenVisData, next := w'.next)
  {
    NextIsFree(w);
    CopiesMatch(w, w', Ref(Datasets, d), Ref(Datasets, w.next));
    hide Orderly, ResourceCopied, BrokenOff, OnlyAdds, ResourceMatches;
  }

  lemma NextIsFree(w: World)
    requires Orderly(w)
    ensures w.next !in w.releases
  {
  }
}
