/** Runs of the system: any sequence of routes, one after the other. */
module Runs {
  import opened Types
  import opened Nested
  import opened Forest
  import opened Paths
  import opened FolderFreeze
  import opened State
  import opened Invariant
  import opened Steps
  import opened ReleaseSteps

  datatype Op =
    | OpCreateDataset(name: string)
    | OpAddFolder(d: Id, name: string, parent: Option<Id>)
    | OpPatchFolder(d: Id, f: Id, newName: Option<string>, parent: Option<Id>)
    | OpDeleteFolder(d: Id, f: Id)
    | OpUpload(d: Id, name: string, contentType: string, folder: Option<Id>, versionId: string)
    | OpUploadLocal(d: Id, name: string, contentType: string, folder: Option<Id>, cleared: bool)
    | OpUpdateFile(f: Id, name: string, contentType: string, versionId: string)
    | OpDeleteFile(f: Id)
    | OpAddMetadata(d: Id, entry: MetadataIn)
    | OpAddFileMetadata(f: Id, entry: MetadataIn, pick: Option<Id>)
    | OpPatchMetadata(m: Id, patch: Json, accepted: bool)
    | OpFreeze(d: Id)
    | OpDeleteVersion(d: Id, number: int)
    | OpDeleteDataset(d: Id)

  /** The route ends: the recursion over child folders does not come back to the folder it started from, the
      walks up from the folders to freeze end; a lookup answers something it can find. */
  ghost predicate Defined(w: World, op: Op) {
    match op
    case OpDeleteFolder(d, f) => d in w.datasets && f in w.folders ==> !ComesBack(w.folders, d, f)
    case OpAddFileMetadata(f, entry, pick) =>
      f in w.files && entry.definition.Some? ==> Answers(pick, MetadataFor(w, f, entry))
    case OpPatchMetadata(_, patch, _) => patch.Obj?
    case OpFreeze(d) => d in w.datasets ==> Acyclic(Reached(w.folders, d))
    case _ => true
  }

  /** The conditions under which a route keeps the invariant; each is shown exact in module Steps. */
  ghost predicate Careful(w: World, op: Op) {
    match op
    case OpAddFolder(d, _, parent) => d in w.datasets ==> SameDatasetParent(w, d, parent)
    case OpUpload(d, _, _, folder, _) => d in w.datasets ==> SameDatasetParent(w, d, folder)
    case OpUploadLocal(d, _, _, folder, cleared) => d in w.datasets && cleared ==> SameDatasetParent(w, d, folder)
    case OpPatchFolder(d, f, _, parent) =>
      Acyclic(w.folders) && (d in w.datasets && f in w.folders ==> MayMove(w, f, parent))
    case OpDeleteFolder(d, f) =>
      d in w.datasets && f in w.folders ==> w.folders[f].dataset == d || !HasChild(w.folders, f)
    case OpUpdateFile(f, name, contentType, _) =>
      f in w.files && name == w.files[f].name && contentType == w.files[f].contentType ==> w.files[f].storage == Minio
    case OpDeleteFile(f) => f in w.files && w.files[f].storage == Minio ==> !HasFrozenCopy(w.frozenFiles, f)
    case _ => true
  }

  ghost predicate Step(w: World, op: Op, w': World)
    requires Defined(w, op)
  {
    match op
    case OpCreateDataset(name) => w' == CreateDataset(w, name).0
    case OpAddFolder(d, name, parent) => w' == AddFolder(w, d, name, parent).0
    case OpPatchFolder(d, f, name, parent) => w' == PatchFolder(w, d, f, name, parent).0
    case OpDeleteFolder(d, f) => w' == DeleteFolder(w, d, f).0
    case OpUpload(d, name, contentType, folder, versionId) =>
      w' == Upload(w, d, name, contentType, folder, versionId).0
    case OpUploadLocal(d, name, contentType, folder, cleared) =>
      w' == UploadLocal(w, d, name, contentType, folder, cleared).0
    case OpUpdateFile(f, name, contentType, versionId) => w' == UpdateFile(w, f, name, contentType, versionId).0
    case OpDeleteFile(f) => w' == DeleteFile(w, f).0
    case OpAddMetadata(d, entry) => w' == AddMetadata(w, d, entry).0
    case OpAddFileMetadata(f, entry, pick) => w' == AddFileMetadata(w, f, entry, pick).0
    case OpPatchMetadata(m, patch, accepted) => w' == PatchMetadata(w, m, patch, accepted).0
    case OpFreeze(d) => if d in w.datasets then exists n :: FreezeEnded(w, d, n, w') else w' == w
    case OpDeleteVersion(d, number) =>
      if HasVersion(w.releases, d, number) then
        exists fd :: IsVersion(w.releases, fd, d, number) && w' == SoftDelete(w, fd)
      else w' == w
    case OpDeleteDataset(d) => w' == DeleteDataset(w, d).0
  }

  /** The states of a run: one route between each two, called with whatever. */
  ghost predicate Run(ws: seq<World>, ops: seq<Op>) {
    && |ws| == |ops| + 1
    && forall i {:trigger ops[i]} :: 0 <= i < |ops| ==> Defined(ws[i], ops[i]) && Step(ws[i], ops[i], ws[i + 1])
  }

  /** A run that meets the conditions. */
  ghost predicate CarefulRun(ws: seq<World>, ops: seq<Op>) {
    Run(ws, ops) && forall i {:trigger ops[i]} :: 0 <= i < |ops| ==> Careful(ws[i], ops[i])
  }

  predicate IsFolderOp(op: Op) {
    op.OpAddFolder? || op.OpPatchFolder? || op.OpDeleteFolder?
  }

  predicate IsFileOp(op: Op) {
    op.OpUpload? || op.OpUploadLocal? || op.OpUpdateFile? || op.OpDeleteFile?
  }

  predicate IsMetadataOp(op: Op) {
    op.OpAddMetadata? || op.OpAddFileMetadata? || op.OpPatchMetadata?
  }

  predicate IsReleaseOp(op: Op) {
    op.OpFreeze? || op.OpDeleteVersion? || op.OpDeleteDataset?
  }

  // ----- What every run keeps -----

  lemma FolderStepKeepsOrder(w: World, op: Op, w': World)
    requires Orderly(w) && Defined(w, op) && Step(w, op, w') && IsFolderOp(op)
    ensures Orderly(w')
  {
    hide IdsIssued, Lineage, Numbered, Owned;
    if op.OpAddFolder? {
      AddFolderIds(w, op.d, op.name, op.parent);
    } else if op.OpPatchFolder? {
      PatchFolderIds(w, op.d, op.f, op.newName, op.parent);
    } else if op.d in w.datasets && op.f in w.folders {
      DropFoldersKeepsOrder(w, DoomedBy(w, op.d, op.f));
    }
  }

  lemma FileStepKeepsOrder(w: World, op: Op, w': World)
    requires Orderly(w) && Defined(w, op) && Step(w, op, w') && IsFileOp(op)
    ensures Orderly(w')
  {
    hide Orderly;
    match op
    case OpUpload(d, name, contentType, folder, versionId) =>
      if d in w.datasets && FolderThere(w, folder) {
        StoreFileKeepsOrder(w, File(name, contentType, d, folder, Minio, versionId, 1, None));
      }
    case OpUploadLocal(d, name, contentType, folder, cleared) =>
      if d in w.datasets && cleared && FolderThere(w, folder) {
        InsertFileKeepsOrder(w, File(name, contentType, d, folder, Local, "N/A", 0, None));
      }
    case OpUpdateFile(f, name, contentType, versionId) =>
      if f in w.files && name == w.files[f].name && contentType == w.files[f].contentType {
        StoreVersionKeepsOrder(w, f, versionId);
      }
    case OpDeleteFile(f) =>
      if f in w.files {
        DeleteFileKeepsOrder(w, f);
      }
  }

  lemma MetadataStepKeepsOrder(w: World, op: Op, w': World)
    requires Orderly(w) && Defined(w, op) && Step(w, op, w') && IsMetadataOp(op)
    ensures Orderly(w')
  {
    hide IdsIssued, Lineage, Numbered, Owned;
    if w' != w {
      if op.OpPatchMetadata? {
        SameKeysSameIds(w, w'.metadata);
      } else {
        InsertMetadataIds(w, w'.metadata[w.next]);
      }
    }
  }

  lemma ReleaseStepKeepsOrder(w: World, op: Op, w': World)
    requires Orderly(w) && Defined(w, op) && Step(w, op, w') && IsReleaseOp(op)
    ensures Orderly(w')
  {
    hide Orderly;
    if op.OpFreeze? {
      if op.d in w.datasets {
        var n :| FreezeEnded(w, op.d, n, w');
        AnyFreezeKeepsOrder(w, op.d, n, w');
      }
    } else if op.OpDeleteVersion? {
      if HasVersion(w.releases, op.d, op.number) {
        var fd :| IsVersion(w.releases, fd, op.d, op.number) && w' == SoftDelete(w, fd);
        SoftDeleteKeepsOrder(w, fd);
      }
    } else if op.d in w.datasets {
      DeleteDatasetKeepsOrder(w, op.d);
    }
  }

  lemma StepKeepsOrder(w: World, op: Op, w': World)
    requires Orderly(w) && Defined(w, op) && Step(w, op, w')
    ensures Orderly(w')
  {
    hide Orderly;
    if IsFolderOp(op) {
      FolderStepKeepsOrder(w, op, w');
    } else if IsFileOp(op) {
      FileStepKeepsOrder(w, op, w');
    } else if IsMetadataOp(op) {
      MetadataStepKeepsOrder(w, op, w');
    } else if IsReleaseOp(op) {
      ReleaseStepKeepsOrder(w, op, w');
    } else {
      CreateDatasetKeepsOrder(w, op.name);
    }
  }

  /** Every state of every run, conditions met or not: ids are never shared, frozen records belong to
      releases, files that share bytes agree, the releases of a dataset are numbered without gaps. */
  lemma {:induction false} RunKeepsOrder(ws: seq<World>, ops: seq<Op>, i: nat)
    requires Run(ws, ops) && Orderly(ws[0]) && i <= |ops|
    ensures Orderly(ws[i])
  {
    hide Orderly;
    if i > 0 {
      RunKeepsOrder(ws, ops, i - 1);
      StepKeepsOrder(ws[i - 1], ops[i - 1], ws[i]);
    }
  }

  // ----- What careful runs keep -----

  lemma FolderStepKeeps(w: World, op: Op, w': World)
    requires Inv(w) && Defined(w, op) && Careful(w, op) && Step(w, op, w') && IsFolderOp(op)
    ensures Inv(w')
  {
    hide Inv;
    if op.OpAddFolder? {
      if op.d in w.datasets { AddFolderKeepsIff(w, op.d, op.name, op.parent); }
    } else if op.OpPatchFolder? {
      if op.d in w.datasets && op.f in w.folders { PatchFolderKeepsIff(w, op.d, op.f, op.newName, op.parent); }
    } else if op.d in w.datasets && op.f in w.folders {
      DeleteFolderKeepsIff(w, op.d, op.f);
    }
  }

  lemma FileStepKeeps(w: World, op: Op, w': World)
    requires Inv(w) && Defined(w, op) && Careful(w, op) && Step(w, op, w') && IsFileOp(op)
    ensures Inv(w')
  {
    hide Inv;
    match op
    case OpUpload(d, name, contentType, folder, versionId) =>
      if d in w.datasets {
        UploadKeepsIff(w, d, name, contentType, folder, versionId);
      }
    case OpUploadLocal(d, name, contentType, folder, cleared) =>
      if d in w.datasets && cleared {
        UploadLocalKeepsIff(w, d, name, contentType, folder);
      }
    case OpUpdateFile(f, name, contentType, versionId) =>
      if f in w.files && name == w.files[f].name && contentType == w.files[f].contentType {
        UpdateFileKeepsIff(w, f, versionId);
      }
    case OpDeleteFile(f) =>
      if f in w.files {
        DeleteFileKeepsIff(w, f);
      }
  }

  lemma MetadataStepKeeps(w: World, op: Op, w': World)
    requires Inv(w) && Defined(w, op) && Step(w, op, w') && IsMetadataOp(op)
    ensures Inv(w')
  {
    hide Inv;
    if w' != w {
      if op.OpPatchMetadata? {
        SetBodyKeeps(w, op.m, Update(w.metadata[op.m].body, op.patch));
      } else {
        InsertMetadataKeeps(w, w'.metadata[w.next]);
      }
    }
  }

  lemma ReleaseStepKeeps(w: World, op: Op, w': World)
    requires Inv(w) && Defined(w, op) && Step(w, op, w') && IsReleaseOp(op)
    ensures Inv(w')
  {
    hide Inv;
    if op.OpFreeze? {
      if op.d in w.datasets {
        var n :| FreezeEnded(w, op.d, n, w');
        FreezeGoesThrough(w, op.d, n, w');
        FreezeKeeps(w, op.d, n, w');
      }
    } else if op.OpDeleteVersion? {
      VersionStepKeeps(w, op.d, op.number, w');
    } else if op.d in w.datasets {
      DeleteDatasetKeeps(w, op.d);
    }
  }

  lemma VersionStepKeeps(w: World, d: Id, number: int, w': World)
    requires Inv(w) && Step(w, OpDeleteVersion(d, number), w')
    ensures Inv(w')
  {
    if HasVersion(w.releases, d, number) {
      var fd :| IsVersion(w.releases, fd, d, number) && w' == SoftDelete(w, fd);
      SoftDeleteKeeps(w, fd);
    }
  }

  lemma StepKeeps(w: World, op: Op, w': World)
    requires Inv(w) && Defined(w, op) && Careful(w, op) && Step(w, op, w')
    ensures Inv(w')
  {
    hide Inv;
    if IsFolderOp(op) {
      FolderStepKeeps(w, op, w');
    } else if IsFileOp(op) {
      FileStepKeeps(w, op, w');
    } else if IsMetadataOp(op) {
      MetadataStepKeeps(w, op, w');
    } else if IsReleaseOp(op) {
      ReleaseStepKeeps(w, op, w');
    } else {
      CreateDatasetKeeps(w, op.name);
    }
  }

  /** Every state of every careful run satisfies the invariant: the forest stays acyclic and closed, the
      object store holds exactly the keys some record needs, the histories and numbers are gapless. */
  lemma {:induction false} RunKeeps(ws: seq<World>, ops: seq<Op>, i: nat)
    requires CarefulRun(ws, ops) && Inv(ws[0]) && i <= |ops|
    ensures Inv(ws[i])
  {
    hide Inv;
    if i > 0 {
      RunKeeps(ws, ops, i - 1);
      StepKeeps(ws[i - 1], ops[i - 1], ws[i]);
    }
  }

  /** In particular every state they reach from the empty database. */
  lemma ReachableStatesAreFine(ws: seq<World>, ops: seq<Op>, i: nat)
    requires CarefulRun(ws, ops) && ws[0] == EMPTY && i <= |ops|
    ensures Inv(ws[i])
  {
    hide Inv;
    EmptyIsFine();
    RunKeeps(ws, ops, i);
  }

  // ----- What the object store keeps -----

  /** The condition under which a route keeps the object store exact: only the update of a local file and the
      unconditional removal of a file can fail. */
  ghost predicate SparesBytes(w: World, op: Op) {
    op.OpUpdateFile? || op.OpDeleteFile? ==> Careful(w, op)
  }

  lemma FileStepBytesIff(w: World, op: Op, w': World)
    requires Orderly(w) && BytesExact(w.files, w.frozenFiles, w.objects)
    requires Defined(w, op) && Step(w, op, w') && IsFileOp(op)
    ensures BytesExact(w'.files, w'.frozenFiles, w'.objects) <==> SparesBytes(w, op)
  {
    hide Orderly, BytesExact, HasFrozenCopy, StoreFile, StoreVersion;
    match op
    case OpUpload(d, name, contentType, folder, versionId) =>
      if d in w.datasets && FolderThere(w, folder) {
        StoredBytes(w, File(name, contentType, d, folder, Minio, versionId, 1, None));
      }
    case OpUploadLocal(d, name, contentType, folder, cleared) =>
      if d in w.datasets && cleared && FolderThere(w, folder) {
        InsertedBytes(w, File(name, contentType, d, folder, Local, "N/A", 0, None));
      }
    case OpUpdateFile(f, name, contentType, versionId) =>
      if f in w.files && name == w.files[f].name && contentType == w.files[f].contentType {
        UpdatedBytesIff(w, f, versionId);
      }
    case OpDeleteFile(f) =>
      if f in w.files {
        DeletedBytesIff(w, f);
      }
  }

  lemma StoredBytes(w: World, file: File)
    requires Orderly(w) && BytesExact(w.files, w.frozenFiles, w.objects) && file.storage == Minio
    ensures var w' := StoreFile(w, file); BytesExact(w'.files, w'.frozenFiles, w'.objects)
  {
    NewFileBytes(w, file);
  }

  lemma InsertedBytes(w: World, file: File)
    requires Orderly(w) && BytesExact(w.files, w.frozenFiles, w.objects) && file.storage == Local
    ensures var w' := InsertFile(w, file); BytesExact(w'.files, w'.frozenFiles, w'.objects)
  {
    NewFileBytes(w, file);
  }

  lemma UpdatedBytesIff(w: World, f: Id, versionId: string)
    requires Orderly(w) && BytesExact(w.files, w.frozenFiles, w.objects) && f in w.files
    ensures var w' := StoreVersion(w, f, versionId);
            BytesExact(w'.files, w'.frozenFiles, w'.objects) <==> w.files[f].storage == Minio
  {
    StoreVersionBytesIff(w, f, versionId);
  }

  lemma DeletedBytesIff(w: World, f: Id)
    requires Orderly(w) && BytesExact(w.files, w.frozenFiles, w.objects) && f in w.files
    ensures var w' := DropUnconditionally(w, f);
            BytesExact(w'.files, w'.frozenFiles, w'.objects) <==>
            (w.files[f].storage == Minio ==> !HasFrozenCopy(w.frozenFiles, f))
  {
    DropIsRemoval(w, f);
    DeleteFileBytesIff(w, f);
  }

  lemma ReleaseStepBytes(w: World, op: Op, w': World)
    requires Orderly(w) && BytesExact(w.files, w.frozenFiles, w.objects)
    requires Defined(w, op) && Step(w, op, w') && IsReleaseOp(op)
    ensures BytesExact(w'.files, w'.frozenFiles, w'.objects)
  {
    hide BytesExact, DropReleases, Numbered, History, Owned, IdsIssued;
    match op
    case OpFreeze(d) =>
      if d in w.datasets {
        var n :| FreezeEnded(w, d, n, w');
        FrozenBytes(w, d, n, w');
      }
    case OpDeleteVersion(d, number) =>
      if HasVersion(w.releases, d, number) {
        var fd :| IsVersion(w.releases, fd, d, number) && w' == SoftDelete(w, fd);
        DropReleasesBytes(w, {fd});
      }
    case OpDeleteDataset(d) =>
      if d in w.datasets {
        DeleteDatasetBytes(w, d);
      }
  }

  lemma FrozenBytes(w: World, d: Id, n: nat, w': World)
    requires Orderly(w) && BytesExact(w.files, w.frozenFiles, w.objects) && FreezeEnded(w, d, n, w')
    ensures BytesExact(w'.files, w'.frozenFiles, w'.objects)
  {
    hide Orderly, BytesExact, Froze, OnlyAdds, BrokenOff, ResourceCopied;
    FreezeOnlyAdds(w, d, n, w');
    if Closed(Reached(w.folders, d)) {
      FrozeBytes(w, d, n, w');
    }
  }

  lemma OtherStepBytes(w: World, op: Op, w': World)
    requires Lineage(w.releases, w.files, w.frozenFiles) && BytesExact(w.files, w.frozenFiles, w.objects)
    requires Defined(w, op) && Step(w, op, w') && !IsFileOp(op) && !IsReleaseOp(op)
    ensures BytesExact(w'.files, w'.frozenFiles, w'.objects)
  {
    hide BytesExact;
    WorkingStepLeavesFrozen(w, op, w');
    if op.OpDeleteFolder? {
      if op.d in w.datasets && op.f in w.folders {
        DropFilesBytes(w, FilesIn(w.files, DoomedBy(w, op.d, op.f)));
      }
    } else if IsMetadataOp(op) {
      MetadataElsewhere(w, op, w');
    } else if op.OpCreateDataset? {
      CreateElsewhere(w, op.name);
    } else if op.OpAddFolder? {
      FoldersElsewhere(w, op.d, 0, Some(op.name), op.parent);
    } else {
      FoldersElsewhere(w, op.d, op.f, op.newName, op.parent);
    }
  }

  /** The same files with their versions and metadata, and no dataset less. */
  predicate SameFiles(w: World, w': World) {
    w'.metadata == w.metadata && w'.files == w.files && w'.versions == w.versions &&
    w.datasets.Keys <= w'.datasets.Keys
  }

  lemma CreateElsewhere(w: World, name: string)
    ensures SameFiles(w, CreateDataset(w, name).0) && CreateDataset(w, name).0.objects == w.objects
  {
  }

  lemma FoldersElsewhere(w: World, d: Id, f: Id, name: Option<string>, parent: Option<Id>)
    ensures name.Some? ==> SameFiles(w, AddFolder(w, d, name.value, parent).0)
    ensures SameFiles(w, PatchFolder(w, d, f, name, parent).0)
    ensures name.Some? ==> AddFolder(w, d, name.value, parent).0.objects == w.objects
    ensures PatchFolder(w, d, f, name, parent).0.objects == w.objects
  {
    hide AddFolder, PatchFolder;
  }

  lemma MetadataElsewhere(w: World, op: Op, w': World)
    requires Defined(w, op) && Step(w, op, w') && IsMetadataOp(op)
    ensures MetadataOnly(w, w')
  {
    hide AddMetadata, AddFileMetadata, PatchMetadata, MetadataOnly;
  }

  /** One route keeps the object keys exactly the needed ones exactly under that condition, whatever else is
      out of order. */
  lemma StepKeepsBytesIff(w: World, op: Op, w': World)
    requires Orderly(w) && BytesExact(w.files, w.frozenFiles, w.objects) && Defined(w, op) && Step(w, op, w')
    ensures BytesExact(w'.files, w'.frozenFiles, w'.objects) <==> SparesBytes(w, op)
  {
    hide BytesExact, Step, Defined;
    if IsFileOp(op) {
      FileStepBytesIff(w, op, w');
    } else if IsReleaseOp(op) {
      ReleaseStepBytes(w, op, w');
    } else {
      OtherStepBytes(w, op, w');
    }
  }

  /** A run in which these two routes meet their condition; the others are called with whatever. */
  ghost predicate SparingRun(ws: seq<World>, ops: seq<Op>) {
    Run(ws, ops) && forall i {:trigger ops[i]} :: 0 <= i < |ops| ==> SparesBytes(ws[i], ops[i])
  }

  lemma CarefulIsSparing(ws: seq<World>, ops: seq<Op>)
    requires CarefulRun(ws, ops)
    ensures SparingRun(ws, ops)
  {
    hide Careful;
  }

  /** Over such a run nothing a record needs is lost and nothing is leaked, whatever becomes of the folders. */
  lemma {:induction false} RunKeepsBytes(ws: seq<World>, ops: seq<Op>, i: nat)
    requires SparingRun(ws, ops) && Orderly(ws[0]) && i <= |ops|
    requires BytesExact(ws[0].files, ws[0].frozenFiles, ws[0].objects)
    ensures BytesExact(ws[i].files, ws[i].frozenFiles, ws[i].objects)
  {
    hide BytesExact, Orderly;
    if i > 0 {
      RunKeepsBytes(ws, ops, i - 1);
      RunKeepsOrder(ws, ops, i - 1);
      StepKeepsBytesIff(ws[i - 1], ops[i - 1], ws[i]);
    }
  }

  // ----- What a release shows -----

  /** Working and frozen folders as one collection, the way the path routes query them. */
  function View(w: World): Folders {
    w.folders + w.frozenFolders
  }

  lemma ViewIsAForest(w: World)
    requires Inv(w)
    ensures Acyclic(View(w)) && Closed(View(w))
    ensures forall f :: f in w.folders ==> View(w)[f] == w.folders[f]
  {
    var rank := RankOf(w.folders);
    var ranks := map f | f in View(w) :: if f in w.folders then rank[f] else f;
    forall f | HasParent(View(w), f) ensures ranks[ParentOf(View(w), f)] < ranks[f] {
      if f in w.folders {
        assert w.folders[f].parent.value in w.folders && HasParent(w.folders, f);
      } else {
        assert w.frozenFolders[f].parent.value in w.frozenFolders;
      }
    }
    assert Ranked(View(w), ranks);
    forall f | f in View(w) && View(w)[f].parent.Some? ensures View(w)[f].parent.value in View(w) {
      if f in w.folders {
        assert w.folders[f].parent.value in w.folders;
      } else {
        assert w.frozenFolders[f].parent.value in w.frozenFolders;
      }
    }
  }

  /** Where the dataset download writes a file, working or frozen. */
  function ExportPath(fs: Folders, file: File): Outcome<string>
    requires Acyclic(fs)
  {
    if file.folder.None? then Ok(file.name)
    else
      match Hierarchy(fs, file.folder.value, "")
      case Ok(h) => Ok(h + file.name)
      case Err(e) => Err(e)
  }

  /** What a release consists of. */
  datatype Content = Content(release: Option<Release>, folders: Folders, files: map<Id, File>, metadata: map<Id, Doc>,
                             visConfigs: map<Id, Doc>, visData: map<Id, Doc>)

  function ContentOf(w: World, fd: Id): Content {
    Content(if fd in w.releases then Some(w.releases[fd]) else None,
            map k | k in w.frozenFolders && w.frozenFolders[k].dataset == fd :: w.frozenFolders[k],
            map x | x in w.frozenFiles && w.frozenFiles[x].dataset == fd :: w.frozenFiles[x],
            DocsIn(w, fd, w.frozenMetadata),
            DocsIn(w, fd, w.frozenVisConfigs),
            map v | v in w.frozenVisData && BelowConfigIn(w, fd, w.frozenVisData[v].owner) :: w.frozenVisData[v])
  }

  function DocsIn(w: World, fd: Id, docs: map<Id, Doc>): map<Id, Doc> {
    map m | m in docs && InRelease(w, fd, docs[m].owner) :: docs[m]
  }

  /** The owner is a visualization config of the release. */
  predicate BelowConfigIn(w: World, fd: Id, owner: Ref) {
    owner.collection == VisConfigs && owner.id in w.frozenVisConfigs &&
    InRelease(w, fd, w.frozenVisConfigs[owner.id].owner)
  }

  /** The route deletes release `fd`, by its number or together with its dataset. */
  predicate Deletes(w: World, op: Op, fd: Id) {
    match op
    case OpDeleteVersion(d, number) => IsVersion(w.releases, fd, d, number)
    case OpDeleteDataset(d) => fd in w.releases && w.releases[fd].origin == d
    case _ => false
  }

  lemma FreezeLeavesRelease(w: World, d: Id, n: nat, w': World, fd: Id)
    requires Orderly(w) && FreezeEnded(w, d, n, w') && fd in w.releases
    ensures fd in w'.releases && ContentOf(w', fd) == ContentOf(w, fd)
  {
    FreezeOnlyAdds(w, d, n, w');
    hide FreezeEnded, Froze, FreezeBroke;
    FreezeLeavesFiles(w, w', fd);
    FreezeLeavesDocs(w, w', fd, w.frozenMetadata, w'.frozenMetadata);
    FreezeLeavesDocs(w, w', fd, w.frozenVisConfigs, w'.frozenVisConfigs);
    FreezeLeavesData(w, w', fd);
  }

  lemma FreezeOnlyAdds(w: World, d: Id, n: nat, w': World)
    requires FreezeEnded(w, d, n, w')
    ensures WorkingSame(w, w') && w'.objects == w.objects && OnlyAdds(w, w.next, w')
    ensures d in w.datasets && w'.releases == w.releases[w.next := Release(w.datasets[d].name, d, n, false)]
  {
    hide OnlyAdds, Snapshot, BrokenOff, ResourceCopied;
  }

  lemma FreezeLeavesFiles(w: World, w': World, fd: Id)
    requires OnlyAdds(w, w.next, w') && fd != w.next
    ensures ContentOf(w', fd).folders == ContentOf(w, fd).folders && ContentOf(w', fd).files == ContentOf(w, fd).files
  {
  }

  /** An owner handed out before the freeze is in the release afterwards exactly when it was before. */
  lemma FreezeLeavesOwners(w: World, w': World, fd: Id, owner: Ref)
    requires OnlyAdds(w, w.next, w') && fd != w.next
    ensures owner.id < w.next ==> (InRelease(w', fd, owner) <==> InRelease(w, fd, owner))
    ensures InRelease(w', w.next, owner) ==> !InRelease(w', fd, owner)
  {
  }

  lemma FreezeLeavesDocs(w: World, w': World, fd: Id, docs: map<Id, Doc>, docs': map<Id, Doc>)
    requires OnlyAdds(w, w.next, w') && fd != w.next && OwnersIssued(docs, w.next)
    requires forall m :: m in docs ==> m in docs' && docs'[m] == docs[m]
    requires forall m :: m in docs' && m !in docs ==> InRelease(w', w.next, docs'[m].owner)
    ensures DocsIn(w', fd, docs') == DocsIn(w, fd, docs)
  {
    forall m | m in docs' ensures m in DocsIn(w', fd, docs') <==> m in DocsIn(w, fd, docs) {
      FreezeLeavesOwners(w, w', fd, docs'[m].owner);
    }
  }

  lemma FreezeLeavesData(w: World, w': World, fd: Id)
    requires OnlyAdds(w, w.next, w') && fd != w.next
    requires OwnersIssued(w.frozenVisData, w.next) && OwnersIssued(w.frozenVisConfigs, w.next)
    ensures ContentOf(w', fd).visData == ContentOf(w, fd).visData
  {
    forall v | v in w'.frozenVisData
      ensures v in ContentOf(w', fd).visData <==> v in ContentOf(w, fd).visData
    {
      var owner := w'.frozenVisData[v].owner;
      if v in w.frozenVisData {
        assert owner.id < w.next;
      } else {
        assert NewConfig(w, w', owner);
      }
      if owner.id in w'.frozenVisConfigs {
        FreezeLeavesOwners(w, w', fd, w'.frozenVisConfigs[owner.id].owner);
      }
    }
  }

  lemma DropOthersLeaves(w: World, gone: set<Id>, fd: Id)
    requires w.releases.Keys !! w.frozenFiles.Keys && fd in w.releases && fd !in gone
    ensures ContentOf(DropReleases(w, gone), fd) == ContentOf(w, fd)
  {
    var w' := DropReleases(w, gone);
    assert ContentOf(w', fd).folders == ContentOf(w, fd).folders;
    assert ContentOf(w', fd).files == ContentOf(w, fd).files;
    assert forall owner :: InRelease(w', fd, owner) <==> InRelease(w, fd, owner);
    DropOthersLeavesMetadata(w, gone, fd);
    SameOwnersSameDocs(w, w', fd);
  }

  lemma SameOwnersSameDocs(w: World, w': World, fd: Id)
    requires forall owner :: InRelease(w', fd, owner) <==> InRelease(w, fd, owner)
    requires w'.frozenVisConfigs == w.frozenVisConfigs && w'.frozenVisData == w.frozenVisData
    ensures ContentOf(w', fd).visConfigs == ContentOf(w, fd).visConfigs
    ensures ContentOf(w', fd).visData == ContentOf(w, fd).visData
  {
  }

  lemma DropOthersLeavesMetadata(w: World, gone: set<Id>, fd: Id)
    requires w.releases.Keys !! w.frozenFiles.Keys && fd in w.releases && fd !in gone
    ensures ContentOf(DropReleases(w, gone), fd).metadata == ContentOf(w, fd).metadata
  {
    var w' := DropReleases(w, gone);
    var doomed := FilesOf(w.frozenFiles, gone);
    forall m | m in w.frozenMetadata && InRelease(w, fd, w.frozenMetadata[m].owner)
      ensures m in w'.frozenMetadata && InRelease(w', fd, w.frozenMetadata[m].owner)
    {
      assert !BelongsTo(w, doomed, w.frozenMetadata[m].owner);
    }
  }

  lemma SoftDeleteLeaves(w: World, gd: Id, fd: Id)
    requires w.releases.Keys !! w.frozenFiles.Keys && fd in w.releases && gd in w.releases && fd != gd
    ensures fd in SoftDelete(w, gd).releases && ContentOf(SoftDelete(w, gd), fd) == ContentOf(w, fd)
  {
    DropOthersLeaves(w, {gd}, fd);
    SameFrozenSameContent(DropReleases(w, {gd}), SoftDelete(w, gd), fd);
  }

  lemma DeleteDatasetLeaves(w: World, d: Id, fd: Id)
    requires w.releases.Keys !! w.frozenFiles.Keys
    requires d in w.datasets && fd in w.releases && w.releases[fd].origin != d
    ensures fd in DeleteDataset(w, d).0.releases && ContentOf(DeleteDataset(w, d).0, fd) == ContentOf(w, fd)
  {
    var gone := ReleasesOf(w.releases, d);
    DropOthersLeaves(w, gone, fd);
    DeleteDatasetFrozen(w, d);
    SameFrozenSameContent(DropReleases(w, gone), DeleteDataset(w, d).0, fd);
  }

  lemma DeleteDatasetFrozen(w: World, d: Id)
    requires d in w.datasets
    ensures var w', dropped := DeleteDataset(w, d).0, DropReleases(w, ReleasesOf(w.releases, d));
            && w'.releases == w.releases - ReleasesOf(w.releases, d) && w'.frozenFolders == dropped.frozenFolders
            && w'.frozenFiles == dropped.frozenFiles && w'.frozenMetadata == dropped.frozenMetadata
            && w'.frozenVisConfigs == dropped.frozenVisConfigs && w'.frozenVisData == dropped.frozenVisData
  {
  }

  lemma SameFrozenSameContent(w: World, w': World, fd: Id)
    requires fd in w.releases && fd in w'.releases && w'.releases[fd] == w.releases[fd]
    requires w'.frozenFolders == w.frozenFolders
    requires w'.frozenFiles == w.frozenFiles && w'.frozenMetadata == w.frozenMetadata
    requires w'.frozenVisConfigs == w.frozenVisConfigs && w'.frozenVisData == w.frozenVisData
    ensures ContentOf(w', fd) == ContentOf(w, fd)
  {
    assert forall owner :: InRelease(w', fd, owner) <==> InRelease(w, fd, owner);
    SameOwnersSameDocs(w, w', fd);
    assert ContentOf(w', fd).metadata == ContentOf(w, fd).metadata;
  }

  lemma WorkingStepLeavesFrozen(w: World, op: Op, w': World)
    requires Defined(w, op) && Step(w, op, w') && !IsReleaseOp(op)
    ensures FrozenSame(w, w')
  {
    if op.OpDeleteFile? && op.f in w.files {
      DropIsRemoval(w, op.f);
    }
  }

  lemma MissingDataset(w: World, d: Id)
    requires d !in w.datasets
    ensures DeleteDataset(w, d).0 == w
  {
  }

  lemma ReleaseStepLeaves(w: World, op: Op, w': World, fd: Id)
    requires Orderly(w) && Defined(w, op) && Step(w, op, w') && fd in w.releases && !Deletes(w, op, fd)
    requires IsReleaseOp(op)
    ensures fd in w'.releases && ContentOf(w', fd) == ContentOf(w, fd)
  {
    hide ContentOf, FreezeEnded, SoftDelete, DeleteDataset, Numbered, Lineage;
    if op.OpFreeze? {
      if op.d in w.datasets {
        var n :| FreezeEnded(w, op.d, n, w');
        FreezeLeavesRelease(w, op.d, n, w', fd);
      }
    } else if op.OpDeleteVersion? {
      if HasVersion(w.releases, op.d, op.number) {
        var gd :| IsVersion(w.releases, gd, op.d, op.number) && w' == SoftDelete(w, gd);
        SoftDeleteLeaves(w, gd, fd);
      }
    } else if op.d in w.datasets {
      DeleteDatasetLeaves(w, op.d, fd);
    } else {
      MissingDataset(w, op.d);
    }
  }

  /** One route, whatever it is called with: a release it does not delete is not changed at all. */
  lemma StepLeavesRelease(w: World, op: Op, w': World, fd: Id)
    requires Orderly(w) && Defined(w, op) && Step(w, op, w') && fd in w.releases && !Deletes(w, op, fd)
    ensures fd in w'.releases && ContentOf(w', fd) == ContentOf(w, fd)
  {
    if IsReleaseOp(op) {
      ReleaseStepLeaves(w, op, w', fd);
    } else {
      WorkingStepLeavesFrozen(w, op, w');
      SameFrozenSameContent(w, w', fd);
    }
  }

  /** The walk from a frozen folder never leaves its release. */
  lemma ReleasePaths(w: World, w': World, fd: Id, x: Id)
    requires Inv(w) && Inv(w') && ContentOf(w, fd).folders == ContentOf(w', fd).folders
    requires x in w.frozenFiles && w.frozenFiles[x].dataset == fd
    ensures Acyclic(View(w)) && Acyclic(View(w'))
    ensures ExportPath(View(w), w.frozenFiles[x]) == ExportPath(View(w'), w.frozenFiles[x])
    ensures ExportPath(View(w), w.frozenFiles[x]).Ok?
  {
    hide IdsBelow, IdsApart, WorkingTree, Lineage, History, Numbered, BytesExact;
    var file := w.frozenFiles[x];
    if file.folder.Some? {
      assert file.folder.value in w.frozenFolders && w.frozenFolders[file.folder.value].dataset == fd;
      SamePathInRelease(w, w', fd, file.folder.value);
    } else {
      ViewIsAForest(w);
      ViewIsAForest(w');
    }
  }

  lemma SamePathInRelease(w: World, w': World, fd: Id, k: Id)
    requires Inv(w) && Inv(w') && ContentOf(w, fd).folders == ContentOf(w', fd).folders
    requires k in w.frozenFolders && w.frozenFolders[k].dataset == fd
    ensures Acyclic(View(w)) && Acyclic(View(w'))
    ensures Hierarchy(View(w), k, "") == Hierarchy(View(w'), k, "") && Hierarchy(View(w), k, "").Ok?
  {
    hide IdsBelow, IdsApart, WorkingTree, Lineage, History, Numbered, BytesExact;
    SameNamesInRelease(w, w', fd, k);
    ViewIsAForest(w);
    ViewIsAForest(w');
    HierarchySpellsNames(View(w), k, "");
    HierarchySpellsNames(View(w'), k, "");
  }

  lemma {:induction false} SameNamesInRelease(w: World, w': World, fd: Id, k: Id)
    requires Inv(w) && Inv(w') && ContentOf(w, fd).folders == ContentOf(w', fd).folders
    requires k in w.frozenFolders && w.frozenFolders[k].dataset == fd
    ensures Acyclic(View(w)) && Acyclic(View(w')) && k in w'.frozenFolders
    ensures Names(View(w), k) == Names(View(w'), k)
    decreases k
  {
    ViewIsAForest(w);
    ViewIsAForest(w');
    var c := ContentOf(w, fd).folders;
    assert c[k] == w.frozenFolders[k];
    assert k in ContentOf(w', fd).folders && w'.frozenFolders[k] == w.frozenFolders[k];
    assert View(w)[k] == View(w')[k] == c[k];
    NamesUnfold(View(w), k);
    NamesUnfold(View(w'), k);
    if c[k].parent.Some? {
      var p := w.frozenFolders[k].parent.value;
      assert p in w.frozenFolders && p < k && w.frozenFolders[p].dataset == fd;
      SameNamesInRelease(w, w', fd, p);
    }
  }

  /** A run that never deletes release `fd`. */
  ghost predicate Spares(ws: seq<World>, ops: seq<Op>, fd: Id) {
    |ws| > |ops| && forall i {:trigger ops[i]} :: 0 <= i < |ops| ==> !Deletes(ws[i], ops[i], fd)
  }

  /** Snapshot isolation: whatever else runs, conditions met or not, a release that is not deleted keeps
      its record, its folders, files and documents. */
  lemma {:induction false} RunLeavesRelease(ws: seq<World>, ops: seq<Op>, fd: Id, i: nat)
    requires Run(ws, ops) && Orderly(ws[0]) && fd in ws[0].releases && Spares(ws, ops, fd) && i <= |ops|
    ensures fd in ws[i].releases && ContentOf(ws[i], fd) == ContentOf(ws[0], fd)
  {
    if i > 0 {
      RunLeavesRelease(ws, ops, fd, i - 1);
      NextKeepsContent(ws, ops, fd, ContentOf(ws[0], fd), i - 1);
    }
  }

  lemma NextKeepsContent(ws: seq<World>, ops: seq<Op>, fd: Id, c: Content, i: nat)
    requires Run(ws, ops) && Orderly(ws[0]) && Spares(ws, ops, fd) && i < |ops|
    requires fd in ws[i].releases && ContentOf(ws[i], fd) == c
    ensures fd in ws[i + 1].releases && ContentOf(ws[i + 1], fd) == c
  {
    RunKeepsOrder(ws, ops, i);
    StepLeavesRelease(ws[i], ops[i], ws[i + 1], fd);
  }

  /** ... every stored file of it has its bytes, as long as the two routes that can take them meet their
      condition, ... */
  lemma RunKeepsReleaseBytes(ws: seq<World>, ops: seq<Op>, fd: Id, x: Id, i: nat)
    requires SparingRun(ws, ops) && Orderly(ws[0]) && BytesExact(ws[0].files, ws[0].frozenFiles, ws[0].objects)
    requires fd in ws[0].releases && Spares(ws, ops, fd) && i <= |ops|
    requires x in ws[0].frozenFiles && ws[0].frozenFiles[x].dataset == fd && ws[0].frozenFiles[x].storage == Minio
    ensures x in ws[i].frozenFiles && ws[i].frozenFiles[x] == ws[0].frozenFiles[x]
    ensures ws[0].frozenFiles[x].origin.Some? && ws[0].frozenFiles[x].origin.value in ws[i].objects
  {
    RunLeavesRelease(ws, ops, fd, i);
    RunKeepsBytes(ws, ops, i);
    assert x in ContentOf(ws[0], fd).files && ContentOf(ws[0], fd).files[x] == ws[0].frozenFiles[x];
    assert x in ContentOf(ws[i], fd).files && ws[i].frozenFiles[x] == ws[0].frozenFiles[x];
    assert ws[0].frozenFiles[x].origin.value in LiveKeys(ws[i].files, ws[i].frozenFiles);
  }

  /** ... and over a careful run it exports every file to the same path. */
  lemma RunKeepsExports(ws: seq<World>, ops: seq<Op>, fd: Id, x: Id)
    requires CarefulRun(ws, ops) && Inv(ws[0]) && fd in ws[0].releases && Spares(ws, ops, fd)
    requires x in ws[0].frozenFiles && ws[0].frozenFiles[x].dataset == fd
    ensures var w, w' := ws[0], ws[|ops|];
            && x in w'.frozenFiles && w'.frozenFiles[x] == w.frozenFiles[x]
            && Acyclic(View(w)) && Acyclic(View(w'))
            && ExportPath(View(w'), w'.frozenFiles[x]) == ExportPath(View(w), w.frozenFiles[x])
            && (w.frozenFiles[x].storage == Minio ==>
                  w.frozenFiles[x].origin.Some? && w.frozenFiles[x].origin.value in w'.objects)
  {
    InvIsOrderly(ws[0]);
    RunLeavesRelease(ws, ops, fd, |ops|);
    RunKeeps(ws, ops, |ops|);
    var w, w' := ws[0], ws[|ops|];
    assert x in ContentOf(w, fd).files && ContentOf(w, fd).files[x] == w.frozenFiles[x];
    assert x in ContentOf(w', fd).files && w'.frozenFiles[x] == w.frozenFiles[x];
    ReleasePaths(w, w', fd, x);
  }

  /** A fresh release exports each file where the working dataset exports its origin, even when a
      folder was frozen twice. */
  lemma FreezeKeepsExportPaths(w: World, d: Id, n: nat, w': World, x: Id)
    requires Inv(w) && Froze(w, d, n, w') && x in w'.frozenFiles && w'.frozenFiles[x].dataset == w.next
    ensures Acyclic(View(w)) && Acyclic(View(w'))
    ensures w'.frozenFiles[x].origin.Some? && w'.frozenFiles[x].origin.value in w.files
    ensures ExportPath(View(w'), w'.frozenFiles[x]) == ExportPath(View(w), w.files[w'.frozenFiles[x].origin.value])
  {
    hide IdsIssued, History, Numbered, BytesExact, Lineage;
    FreezeKeeps(w, d, n, w');
    ViewIsAForest(w);
    ViewIsAForest(w');
    var o := w'.frozenFiles[x].origin.value;
    assert IsFileCopy(w, d, w.next, w'.frozenFolders, w'.frozenFiles[x], o);
    if w.files[o].folder.Some? {
      OwnFolderIsAbove(w.folders, d, w.files[o].folder.value);
      var k, f := w'.frozenFiles[x].folder.value, w.files[o].folder.value;
      FrozenNames(w, d, n, w', k);
      HierarchySpellsNames(View(w), f, "");
      HierarchySpellsNames(View(w'), k, "");
    }
  }

  lemma FrozenNames(w: World, d: Id, n: nat, w': World, k: Id)
    requires Inv(w) && Froze(w, d, n, w') && k in w'.frozenFolders && w'.frozenFolders[k].dataset == w.next
    requires Acyclic(View(w)) && Acyclic(View(w'))
    ensures w'.frozenFolders[k].origin.Some? && w'.frozenFolders[k].origin.value in w.folders
    ensures Names(View(w'), k) == Names(View(w), w'.frozenFolders[k].origin.value)
  {
    ViewIsAForest(w);
    assert forall f :: f in w.folders ==> w.folders[f].dataset < w.next;
    var gs := View(w');
    forall j | j in gs && gs[j].dataset == w.next ensures IsCopy(View(w), w.next, gs, j) {
      assert j in w'.frozenFolders && IsCopy(w.folders, w.next, w'.frozenFolders, j);
    }
    CopyHasTheNamesOfItsOrigin(View(w), gs, w.next, k);
  }
}
