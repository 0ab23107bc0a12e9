/** The collections of the database and the object store, and what each route does to them.
    Deletions are given as what they leave, all at once; the routes delete record by record. */
module State {
  import opened Types
  import opened Nested
  import opened Forest
  import opened FolderFreeze

  datatype Dataset = Dataset(name: string)

  /** A record of `datasets_freeze`: release `number` of the working dataset `origin`. */
  datatype Release = Release(name: string, origin: Id, number: nat, deleted: bool)

  datatype Storage = Minio | Local

  /** A record of `files` or `files_freeze`; a frozen file keeps its bytes under `origin`. */
  datatype File = File(name: string, contentType: string, dataset: Id, folder: Option<Id>, storage: Storage,
                       versionId: string, versionNum: nat, origin: Option<Id>)

  datatype FileVersion = FileVersion(file: Id, versionId: string, num: nat)

  datatype Collection = Datasets | Files | VisConfigs

  datatype Ref = Ref(collection: Collection, id: Id)

  /** Who wrote metadata: a user, or a user's extractor with its version. */
  datatype Agent = Agent(creator: string, listener: Option<string>)

  /** Metadata, visualization configs and visualization data: a body attached to an owner. */
  datatype Doc = Doc(owner: Ref, definition: Option<string>, agent: Agent, version: Option<int>, body: Json,
                     origin: Option<Id>)

  /** What a metadata route is sent; `accepted` stands for the answer of the validation of the contents,
      `registered` for whether the extractor, if any, is known. */
  datatype MetadataIn = MetadataIn(definition: Option<string>, agent: Agent, version: Option<int>, body: Json,
                                   accepted: bool, registered: bool)

  datatype Role = Owner | Editor | Uploader | Viewer

  datatype Authorization = Authorization(dataset: Id, role: Role, userIds: seq<string>, groupIds: seq<Id>)

  datatype World = World(
    datasets: map<Id, Dataset>, releases: map<Id, Release>,
    folders: Folders, frozenFolders: Folders,
    files: map<Id, File>, frozenFiles: map<Id, File>, versions: map<Id, FileVersion>,
    metadata: map<Id, Doc>, frozenMetadata: map<Id, Doc>,
    visConfigs: map<Id, Doc>, frozenVisConfigs: map<Id, Doc>,
    visData: map<Id, Doc>, frozenVisData: map<Id, Doc>,
    auths: map<Id, Authorization>,
    objects: set<Id>,
    next: Id)

  /** The releases and all that is in them are the same. */
  predicate FrozenSame(w: World, w': World) {
    && w'.releases == w.releases && w'.frozenFolders == w.frozenFolders
    && w'.frozenFiles == w.frozenFiles && w'.frozenMetadata == w.frozenMetadata
    && w'.frozenVisConfigs == w.frozenVisConfigs && w'.frozenVisData == w.frozenVisData
  }

  /** The working datasets and all that is in them are the same. */
  predicate WorkingSame(w: World, w': World) {
    && w'.datasets == w.datasets && w'.folders == w.folders && w'.files == w.files && w'.versions == w.versions
    && w'.metadata == w.metadata && w'.visConfigs == w.visConfigs && w'.visData == w.visData
  }

  /** Only metadata has changed among the working records. */
  predicate MetadataOnly(w: World, w': World) {
    && w'.datasets == w.datasets && w'.folders == w.folders && w'.files == w.files && w'.versions == w.versions
    && w'.objects == w.objects && w'.auths == w.auths
  }

  /** Only folders have changed among the working records. */
  predicate FoldersOnly(w: World, w': World) {
    && w'.datasets == w.datasets && w'.files == w.files && w'.versions == w.versions && w'.metadata == w.metadata
    && w'.objects == w.objects
  }

  // ----- Routes that add or change working records -----

  function CreateDataset(w: World, name: string): (r: (World, Outcome<Id>))
    ensures FrozenSame(w, r.0)
  {
    (w.(datasets := w.datasets[w.next := Dataset(name)],
        auths := w.auths[w.next + 1 := Authorization(w.next, Owner, [], [])],
        next := w.next + 2),
     Ok(w.next))
  }

  function AddFolder(w: World, d: Id, name: string, parent: Option<Id>): (r: (World, Outcome<Id>))
    ensures FrozenSame(w, r.0) && FoldersOnly(w, r.0)
  {
    if d !in w.datasets then (w, Err(404))
    else if parent.Some? && parent.value !in w.folders then (w, Err(400))
    else (InsertFolder(w, Folder(name, d, parent, None)), Ok(w.next))
  }

  function InsertFolder(w: World, folder: Folder): (r: World)
    ensures FrozenSame(w, r) && FoldersOnly(w, r)
  {
    w.(folders := w.folders[w.next := folder], next := w.next + 1)
  }

  /** A parent that does not exist is ignored; nothing checks for a cycle or for the dataset. */
  function PatchFolder(w: World, d: Id, f: Id, name: Option<string>, parent: Option<Id>): (r: (World, Outcome<Id>))
    ensures FrozenSame(w, r.0) && FoldersOnly(w, r.0)
  {
    if d !in w.datasets || f !in w.folders then (w, Err(404))
    else (PutFolder(w, f, Patched(w.folders, f, name, parent)), Ok(f))
  }

  function Patched(folders: Folders, f: Id, name: Option<string>, parent: Option<Id>): Folder
    requires f in folders
  {
    var named := if name.Some? then folders[f].(name := name.value) else folders[f];
    if parent.Some? && parent.value in folders then named.(parent := parent) else named
  }

  function PutFolder(w: World, f: Id, folder: Folder): (r: World)
    ensures FrozenSame(w, r) && FoldersOnly(w, r)
  {
    w.(folders := w.folders[f := folder])
  }

  function Upload(w: World, d: Id, name: string, contentType: string, folder: Option<Id>, versionId: string)
    : (r: (World, Outcome<Id>))
    ensures FrozenSame(w, r.0)
  {
    if d !in w.datasets || (folder.Some? && folder.value !in w.folders) then (w, Err(404))
    else (StoreFile(w, File(name, contentType, d, folder, Minio, versionId, 1, None)), Ok(w.next))
  }

  /** The file, its first version record and its bytes. */
  function StoreFile(w: World, file: File): (r: World)
    ensures FrozenSame(w, r)
  {
    w.(files := w.files[w.next := file],
       versions := w.versions[w.next + 1 := FileVersion(w.next, file.versionId, file.versionNum)],
       objects := w.objects + {w.next},
       next := w.next + 2)
  }

  /** `cleared`: the path starts with a whitelisted directory. */
  function UploadLocal(w: World, d: Id, name: string, contentType: string, folder: Option<Id>, cleared: bool)
    : (r: (World, Outcome<Id>))
    ensures FrozenSame(w, r.0)
  {
    if d !in w.datasets then (w, Err(404))
    else if !cleared then (w, Err(500))
    else if folder.Some? && folder.value !in w.folders then (w, Err(404))
    else (InsertFile(w, File(name, contentType, d, folder, Local, "N/A", 0, None)), Ok(w.next))
  }

  function InsertFile(w: World, file: File): (r: World)
    ensures FrozenSame(w, r)
  {
    w.(files := w.files[w.next := file], next := w.next + 1)
  }

  function UpdateFile(w: World, f: Id, name: string, contentType: string, versionId: string): (r: (World, Outcome<Id>))
    ensures FrozenSame(w, r.0)
  {
    if f !in w.files then (w, Err(404))
    else if name != w.files[f].name || contentType != w.files[f].contentType then (w, Err(400))
    else (StoreVersion(w, f, versionId), Ok(f))
  }

  /** The bytes are put under the file's id whatever its storage type. */
  function StoreVersion(w: World, f: Id, versionId: string): (r: World)
    requires f in w.files
    ensures FrozenSame(w, r)
  {
    var num := w.files[f].versionNum + 1;
    w.(files := w.files[f := w.files[f].(versionId := versionId, versionNum := num)],
       versions := w.versions[w.next := FileVersion(f, versionId, num)],
       objects := w.objects + {f},
       next := w.next + 1)
  }

  predicate Records(versions: map<Id, FileVersion>, v: Id, f: Id, num: int) {
    v in versions && versions[v].file == f && versions[v].num == num
  }

  predicate HasRecord(versions: map<Id, FileVersion>, f: Id, num: int) {
    exists v :: v in versions && Records(versions, v, f, num)
  }

  /** The query for the older metadata of an agent: an extractor is asked for whatever the user, a user's
      own entry for everything the user wrote, through extractors or not. */
  predicate WrittenBy(agent: Agent, asked: Agent) {
    if asked.listener.Some? then agent.listener == asked.listener else agent.creator == asked.creator
  }

  /** Older metadata of a resource under the definition of a new entry. */
  function MetadataFor(w: World, owner: Id, m: MetadataIn): set<Id> {
    set o | o in w.metadata && w.metadata[o].owner.id == owner && w.metadata[o].definition == m.definition &&
            WrittenBy(w.metadata[o].agent, m.agent)
  }

  function AddMetadata(w: World, d: Id, m: MetadataIn): (r: (World, Outcome<Id>))
    ensures FrozenSame(w, r.0) && MetadataOnly(w, r.0)
  {
    if d !in w.datasets then (w, Err(404))
    else if m.definition.Some? && MetadataFor(w, d, m) != {} then (w, Err(409))
    else if !m.accepted then (w, Err(400))
    else (InsertMetadata(w, Doc(Ref(Datasets, d), m.definition, m.agent, m.version, m.body, None)), Ok(w.next))
  }

  /** The version an entry is stored under: the one sent if it is positive, else the current one. */
  function TargetVersion(file: File, version: Option<int>): int {
    if version.Some? && version.value > 0 then version.value else file.versionNum
  }

  function FileEntry(file: File, f: Id, m: MetadataIn): Doc {
    Doc(Ref(Files, f), m.definition, m.agent, Some(TargetVersion(file, m.version)), m.body, None)
  }

  /** On a file the same definition may be used again for another version of the file: `pick` is what
      the query for an older entry finds, one of them if there are several. A positive version must exist,
      any other stands for the current one. */
  function AddFileMetadata(w: World, f: Id, m: MetadataIn, pick: Option<Id>): (r: (World, Outcome<Id>))
    requires f in w.files && m.definition.Some? ==> Answers(pick, MetadataFor(w, f, m))
    ensures FrozenSame(w, r.0) && MetadataOnly(w, r.0)
  {
    if f !in w.files then (w, Err(404))
    else
      var version := if m.version.Some? then m.version else Some(w.files[f].versionNum);
      if m.definition.Some? && pick.Some? && w.metadata[pick.value].version == version then (w, Err(409))
      else if !m.accepted then (w, Err(400))
      else if version.value > 0 && !HasRecord(w.versions, f, version.value) then (w, Err(404))
      else if m.agent.listener.Some? && !m.registered then (w, Err(404))
      else (InsertMetadata(w, FileEntry(w.files[f], f, m)), Ok(w.next))
  }

  function InsertMetadata(w: World, doc: Doc): (r: World)
    ensures FrozenSame(w, r) && MetadataOnly(w, r)
  {
    w.(metadata := w.metadata[w.next := doc], next := w.next + 1)
  }

  /** The validation sees the updated contents; if it rejects them nothing is saved. */
  function PatchMetadata(w: World, m: Id, patch: Json, accepted: bool): (r: (World, Outcome<Id>))
    requires patch.Obj?
    ensures FrozenSame(w, r.0) && MetadataOnly(w, r.0)
  {
    if m !in w.metadata then (w, Err(404))
    else if !Accepts(w.metadata[m].body, patch) then (w, Err(500))
    else if !accepted then (w, Err(400))
    else (SetBody(w, m, Update(w.metadata[m].body, patch)), Ok(m))
  }

  function SetBody(w: World, m: Id, body: Json): (r: World)
    requires m in w.metadata
    ensures FrozenSame(w, r) && MetadataOnly(w, r)
  {
    w.(metadata := w.metadata[m := w.metadata[m].(body := body)])
  }

  // ----- Removing working files and folders -----

  predicate HasFrozenCopy(frozenFiles: map<Id, File>, f: Id) {
    exists x :: x in frozenFiles && frozenFiles[x].origin == Some(f)
  }

  /** Working files removed the reference-counting way: bytes go unless a frozen copy needs them. */
  function DropFiles(w: World, doomed: set<Id>): (r: World)
    ensures FrozenSame(w, r)
  {
    w.(files := w.files - doomed,
       versions := map v | v in w.versions && w.versions[v].file !in doomed :: w.versions[v],
       metadata := map m | m in w.metadata &&
                           !(w.metadata[m].owner.collection == Files && w.metadata[m].owner.id in doomed) :: w.metadata[m],
       objects := set o | o in w.objects && !(o in doomed && !HasFrozenCopy(w.frozenFiles, o)))
  }

  /** One working file less; datasets, folders, releases and authorizations as they were. */
  predicate FileGone(w: World, w': World, f: Id) {
    FrozenSame(w, w') && w'.files == w.files - {f} && w'.datasets == w.datasets && w'.folders == w.folders &&
    w'.auths == w.auths && w'.next == w.next
  }

  function DeleteFile(w: World, f: Id): (World, Outcome<Id>) {
    if f !in w.files then (w, Err(404)) else (DropUnconditionally(w, f), Ok(f))
  }

  /** The file route removes a file the unconditional way: metadata goes whatever its collection; a
      local file keeps its version records, any other loses its bytes even if frozen copies share them. */
  function DropUnconditionally(w: World, f: Id): (r: World)
    requires f in w.files
    ensures FileGone(w, r, f)
  {
    if w.files[f].storage == Local then DropLocalFile(w, f) else DropStoredFile(w, f)
  }

  /** The documents of owners with another id, whatever their collection. */
  function DocsOfOthers(docs: map<Id, Doc>, id: Id): map<Id, Doc> {
    map m | m in docs && docs[m].owner.id != id :: docs[m]
  }

  function DropLocalFile(w: World, f: Id): (r: World)
    ensures FileGone(w, r, f)
  {
    w.(files := w.files - {f},
       metadata := DocsOfOthers(w.metadata, f))
  }

  /** The version records of other files. */
  function VersionsBut(versions: map<Id, FileVersion>, f: Id): map<Id, FileVersion> {
    map v | v in versions && versions[v].file != f :: versions[v]
  }

  /** The documents of other owners. */
  function DocsBut(docs: map<Id, Doc>, owner: Ref): map<Id, Doc> {
    map m | m in docs && docs[m].owner != owner :: docs[m]
  }

  function DropStoredFile(w: World, f: Id): (r: World)
    ensures FileGone(w, r, f)
  {
    w.(files := w.files - {f},
       metadata := DocsOfOthers(w.metadata, f),
       versions := VersionsBut(w.versions, f),
       objects := w.objects - {f})
  }

  function FilesIn(files: map<Id, File>, folders: set<Id>): set<Id> {
    set x | x in files && files[x].folder.Some? && files[x].folder.value in folders
  }

  function DropFolders(w: World, doomed: set<Id>): (r: World)
    ensures FrozenSame(w, r)
  {
    DropFiles(w, FilesIn(w.files, doomed)).(folders := w.folders - doomed)
  }

  /** The folder and what the recursion, which asks for folders of dataset `d` only, finds below it. */
  ghost function DoomedBy(w: World, d: Id, f: Id): set<Id> {
    ReachedFrom(w.folders, d, f)
  }

  ghost function DeleteFolder(w: World, d: Id, f: Id): (r: (World, Outcome<Id>))
    ensures FrozenSame(w, r.0)
  {
    if d !in w.datasets || f !in w.folders then (w, Err(404))
    else (DropFolders(w, DoomedBy(w, d, f)), Ok(f))
  }

  // ----- Removing releases -----

  function FilesOf(files: map<Id, File>, owners: set<Id>): set<Id> {
    set x | x in files && files[x].dataset in owners
  }

  /** Object keys that lose their last reference when the frozen files `doomed` go. */
  predicate Orphaned(w: World, doomed: set<Id>, key: Id) {
    && key !in w.files
    && !HasFrozenCopy(w.frozenFiles - doomed, key)
    && exists x :: x in doomed && x in w.frozenFiles && w.frozenFiles[x].storage == Minio &&
                   w.frozenFiles[x].origin == Some(key)
  }

  /** Documents of a frozen file; the routine for local files does not look at the collection. */
  predicate BelongsTo(w: World, doomed: set<Id>, owner: Ref) {
    owner.id in doomed && owner.id in w.frozenFiles &&
    (owner.collection == Files || w.frozenFiles[owner.id].storage == Local)
  }

  function DropFrozenFiles(w: World, doomed: set<Id>): World {
    w.(frozenFiles := w.frozenFiles - doomed,
       frozenMetadata := map m | m in w.frozenMetadata && !BelongsTo(w, doomed, w.frozenMetadata[m].owner) ::
                           w.frozenMetadata[m],
       objects := set o | o in w.objects && !Orphaned(w, doomed, o))
  }

  /** The releases `gone` with everything in them but their own records. */
  function DropReleases(w: World, gone: set<Id>): World {
    var doomed := FilesOf(w.frozenFiles, gone);
    w.(frozenFolders := w.frozenFolders - FoldersOf(w.frozenFolders, gone),
       frozenFiles := w.frozenFiles - doomed,
       frozenMetadata := map m | m in w.frozenMetadata && !BelongsTo(w, doomed, w.frozenMetadata[m].owner) &&
                                 !(w.frozenMetadata[m].owner.collection == Datasets &&
                                   w.frozenMetadata[m].owner.id in gone) :: w.frozenMetadata[m],
       auths := map a | a in w.auths && w.auths[a].dataset !in gone :: w.auths[a],
       objects := set o | o in w.objects && !Orphaned(w, doomed, o))
  }

  /** The version route keeps the release record, marked as deleted. */
  function SoftDelete(w: World, fd: Id): World
    requires fd in w.releases
  {
    DropReleases(w, {fd}).(releases := w.releases[fd := w.releases[fd].(deleted := true)])
  }

  predicate IsVersion(releases: map<Id, Release>, fd: Id, d: Id, number: int) {
    fd in releases && releases[fd].origin == d && releases[fd].number == number
  }

  function ReleasesOf(releases: map<Id, Release>, d: Id): set<Id> {
    set fd | fd in releases && releases[fd].origin == d
  }

  function DropWorkingDocs(w: World, d: Id): World {
    w.(metadata := map m | m in w.metadata && w.metadata[m].owner != Ref(Datasets, d) :: w.metadata[m],
       folders := w.folders - FoldersOf(w.folders, {d}))
  }

  /** The working dataset with its documents, folders, files and authorizations. */
  function DropDataset(w: World, d: Id): World {
    DropFiles(DropWorkingDocs(w, d), FilesOf(w.files, {d}))
    .(auths := map a | a in w.auths && w.auths[a].dataset != d :: w.auths[a], datasets := w.datasets - {d})
  }

  function DeleteDataset(w: World, d: Id): (World, Outcome<Id>) {
    if d !in w.datasets then (w, Err(404))
    else
      var gone := ReleasesOf(w.releases, d);
      (DropDataset(DropReleases(w, gone).(releases := w.releases - gone), d), Ok(d))
  }

  // ----- Freezing -----

  /** One more than the highest number of any release of `d`, soft-deleted ones included. */
  predicate IsNextNumber(releases: map<Id, Release>, d: Id, n: nat) {
    && n >= 1
    && (forall fd :: fd in ReleasesOf(releases, d) ==> releases[fd].number < n)
    && (n == 1 || exists fd :: fd in ReleasesOf(releases, d) && releases[fd].number == n - 1)
  }

  ghost predicate Grows<T(!new)>(m: map<Id, T>, m': map<Id, T>, lo: Id, hi: Id) {
    && (forall k :: k in m ==> k in m' && m'[k] == m[k])
    && (forall k :: k in m' && k !in m ==> lo <= k < hi)
  }

  /** The documents attached to `to` are the copies of those attached to `from`, one each. */
  ghost predicate CopiedTo(src: map<Id, Doc>, dst: map<Id, Doc>, from: Ref, to: Ref) {
    && (forall k :: k in dst && dst[k].owner == to ==> IsDocCopy(src, dst, from, to, k))
    && (forall o :: o in src && src[o].owner == from ==> exists k :: IsDocCopyOf(dst, to, k, o))
    && (forall o, k, l :: IsDocCopyOf(dst, to, k, o) && IsDocCopyOf(dst, to, l, o) ==> k == l)
  }

  ghost predicate IsDocCopy(src: map<Id, Doc>, dst: map<Id, Doc>, from: Ref, to: Ref, k: Id)
    requires k in dst
  {
    dst[k].origin.Some? && dst[k].origin.value in src && src[dst[k].origin.value].owner == from &&
    dst[k] == src[dst[k].origin.value].(owner := to, origin := dst[k].origin)
  }

  ghost predicate IsDocCopyOf(dst: map<Id, Doc>, to: Ref, k: Id, o: Id) {
    k in dst && dst[k].owner == to && dst[k].origin == Some(o)
  }

  /** Metadata, visualization configs and, below each copied config, visualization data. */
  ghost predicate ResourceCopied(w: World, w': World, from: Ref, to: Ref) {
    && CopiedTo(w.metadata, w'.frozenMetadata, from, to)
    && CopiedTo(w.visConfigs, w'.frozenVisConfigs, from, to)
    && forall c :: c in w'.frozenVisConfigs && w'.frozenVisConfigs[c].owner == to ==>
         w'.frozenVisConfigs[c].origin.Some? &&
         CopiedTo(w.visData, w'.frozenVisData,
                  Ref(VisConfigs, w'.frozenVisConfigs[c].origin.value), Ref(VisConfigs, c))
  }

  /** The folders of the release are copies of the folders of `d` and of whatever is above them. */
  ghost predicate FoldersCopied(w: World, d: Id, fd: Id, frozen: Folders) {
    && (forall k :: k in frozen && frozen[k].dataset == fd ==>
          IsCopy(w.folders, fd, frozen, k) && AboveDataset(w.folders, d, frozen[k].origin.value))
    && (forall f :: AboveDataset(w.folders, d, f) ==> exists k :: CopyOf(frozen, fd, k, f))
  }

  /** `x` is working file `o` moved into the release, its folder replaced by a copy of its folder. A
      folder the freeze does not reach, being in another dataset, is kept. */
  ghost predicate IsFileCopy(w: World, d: Id, fd: Id, frozenFolders: Folders, x: File, o: Id) {
    && o in w.files && w.files[o].dataset == d
    && x == w.files[o].(dataset := fd, origin := Some(o), folder := x.folder)
    && match w.files[o].folder
       case None => x.folder == None
       case Some(f) =>
         if AboveDataset(w.folders, d, f) then x.folder.Some? && CopyOf(frozenFolders, fd, x.folder.value, f)
         else x.folder == Some(f)
  }

  ghost predicate FileCopyOf(frozenFiles: map<Id, File>, fd: Id, x: Id, o: Id) {
    x in frozenFiles && frozenFiles[x].dataset == fd && frozenFiles[x].origin == Some(o)
  }

  ghost predicate FilesCopied(w: World, d: Id, fd: Id, frozenFolders: Folders, frozen: map<Id, File>, some: set<Id>) {
    && (forall x :: x in frozen && frozen[x].dataset == fd ==>
          frozen[x].origin.Some? && frozen[x].origin.value in some &&
          IsFileCopy(w, d, fd, frozenFolders, frozen[x], frozen[x].origin.value))
    && (forall o :: o in some ==> exists x :: FileCopyOf(frozen, fd, x, o))
    && (forall o, x, y :: FileCopyOf(frozen, fd, x, o) && FileCopyOf(frozen, fd, y, o) ==> x == y)
  }

  /** Release `fd` of `w'` is a structure-preserving copy of dataset `d` of `w`: the origins cover
      the dataset and every reference of a copy leads to a copy of what its origin refers to, inside
      the release. */
  ghost predicate Snapshot(w: World, d: Id, fd: Id, w': World) {
    && FoldersCopied(w, d, fd, w'.frozenFolders)
    && FilesCopied(w, d, fd, w'.frozenFolders, w'.frozenFiles, FilesOf(w.files, {d}))
    && ResourceCopied(w, w', Ref(Datasets, d), Ref(Datasets, fd))
    && forall x :: x in w'.frozenFiles && w'.frozenFiles[x].dataset == fd ==>
         ResourceCopied(w, w', Ref(Files, w'.frozenFiles[x].origin.value), Ref(Files, x))
  }

  /** Everything the freeze adds belongs to the new release. */
  ghost predicate OnlyAdds(w: World, fd: Id, w': World) {
    && Grows(w.frozenFolders, w'.frozenFolders, w.next + 1, w'.next)
    && (forall k :: k in w'.frozenFolders && k !in w.frozenFolders ==> w'.frozenFolders[k].dataset == fd)
    && Grows(w.frozenFiles, w'.frozenFiles, w.next + 1, w'.next)
    && (forall x :: x in w'.frozenFiles && x !in w.frozenFiles ==> w'.frozenFiles[x].dataset == fd)
    && Grows(w.frozenMetadata, w'.frozenMetadata, w.next + 1, w'.next)
    && (forall m :: m in w'.frozenMetadata && m !in w.frozenMetadata ==> InRelease(w', fd, w'.frozenMetadata[m].owner))
    && Grows(w.frozenVisConfigs, w'.frozenVisConfigs, w.next + 1, w'.next)
    && (forall c :: c in w'.frozenVisConfigs && c !in w.frozenVisConfigs ==>
          InRelease(w', fd, w'.frozenVisConfigs[c].owner))
    && Grows(w.frozenVisData, w'.frozenVisData, w.next + 1, w'.next)
    && (forall v :: v in w'.frozenVisData && v !in w.frozenVisData ==> NewConfig(w, w', w'.frozenVisData[v].owner))
  }

  /** The owner is a visualization config that `w` did not have. */
  predicate NewConfig(w: World, w': World, owner: Ref) {
    owner.collection == VisConfigs && owner.id in w'.frozenVisConfigs && owner.id !in w.frozenVisConfigs
  }

  /** The owner is the release or one of its files. */
  predicate InRelease(w: World, fd: Id, owner: Ref) {
    owner == Ref(Datasets, fd) ||
    (owner.collection == Files && owner.id in w.frozenFiles && w.frozenFiles[owner.id].dataset == fd)
  }

  /** A successful freeze of `d`: the release record takes the first free id, the authorization the last. */
  ghost predicate Froze(w: World, d: Id, n: nat, w': World) {
    var fd := w.next;
    && d in w.datasets && IsNextNumber(w.releases, d, n)
    && fd + 1 < w'.next
    && WorkingSame(w, w') && w'.objects == w.objects
    && w'.releases == w.releases[fd := Release(w.datasets[d].name, d, n, false)]
    && w'.auths == w.auths[w'.next - 1 := Authorization(fd, Owner, [], [])]
    && OnlyAdds(w, fd, w')
    && Snapshot(w, d, fd, w')
  }

  /** The folders in release `fd` of a freeze that ended with an exception: those the loop had frozen when
      it came to a folder below a parent that is gone. */
  ghost predicate BrokenOff(fs: Folders, d: Id, frozen: Folders, fd: Id, frozen': Folders) {
    Acyclic(Reached(fs, d)) &&
    exists order, done, base :: Lists(order, FoldersOf(fs, {d})) &&
                                BrokeAt(Reached(fs, d), frozen, order, done, base, fd, frozen')
  }

  ghost predicate BrokeAt(fs: Folders, frozen: Folders, order: seq<Id>, done: nat, base: Id, fd: Id, frozen': Folders)
    requires Acyclic(fs)
  {
    && done < |order| && !Rooted(fs, order[done]) && (forall f :: f in order[..done] ==> Rooted(fs, f))
    && FreshStart(fd, Freezing(frozen, base, map[]))
    && frozen' == FreezeListed(fs, order[..done], fd, Freezing(frozen, base, map[])).frozen
  }

  /** A freeze that ended with that exception: the release record, the dataset's documents and some folders
      are in, no file, and no authorization. */
  ghost predicate FreezeBroke(w: World, d: Id, n: nat, w': World) {
    var fd := w.next;
    && d in w.datasets && IsNextNumber(w.releases, d, n)
    && WorkingSame(w, w') && w'.objects == w.objects && w'.auths == w.auths && w'.frozenFiles == w.frozenFiles
    && w'.releases == w.releases[fd := Release(w.datasets[d].name, d, n, false)]
    && fd < w'.next && OnlyAdds(w, fd, w')
    && ResourceCopied(w, w', Ref(Datasets, d), Ref(Datasets, fd))
    && BrokenOff(w.folders, d, w.frozenFolders, fd, w'.frozenFolders)
  }

  /** What the freeze of a dataset leaves: it goes through exactly when no folder it reaches names a parent
      that is gone. */
  ghost predicate FreezeEnded(w: World, d: Id, n: nat, w': World) {
    if Closed(Reached(w.folders, d)) then Froze(w, d, n, w') else FreezeBroke(w, d, n, w')
  }
}
