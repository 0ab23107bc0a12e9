/** What becomes of a file, of its versions and of a release over any run: which routes change it, and what a
    reader is answered afterwards. */
module Lives {
  import opened Types
  import opened Nested
  import opened State
  import opened Invariant
  import opened Runs
  import opened Downloads
  import opened Effects

  // ----- Files, route by route -----

  /** The route takes working file `f`. */
  ghost predicate Takes(w: World, op: Op, f: Id)
    requires f in w.files
  {
    match op
    case OpDeleteFile(g) => g == f
    case OpDeleteFolder(d, g) => d in w.datasets && g in w.folders && LiesBelow(w, d, f, g)
    case OpDeleteDataset(d) => d in w.datasets && w.files[f].dataset == d
    case _ => false
  }

  /** The route makes a new version of `f`. */
  predicate Updates(w: World, op: Op, f: Id)
    requires f in w.files
  {
    op.OpUpdateFile? && op.f == f && op.name == w.files[f].name && op.contentType == w.files[f].contentType
  }

  /** A file stays as it is, but for the routes that take it and those that make a new version of it; a file
      there was not has a new id. */
  ghost predicate FilesFollow(w: World, op: Op, w': World) {
    && (forall f :: f in w.files ==> (f in w'.files <==> !Takes(w, op, f)))
    && (forall f :: f in w.files && f in w'.files ==>
          w'.files[f] == if Updates(w, op, f) then w.files[f].(versionId := op.versionId, versionNum := w.files[f].versionNum + 1)
                         else w.files[f])
    && (forall f :: f in w'.files && f !in w.files ==> w.next <= f < w'.next)
    && w.next <= w'.next
  }

  /** The version records of files that stay, stay. */
  ghost predicate VersionsFollow(w: World, w': World) {
    forall v :: v in w.versions && w.versions[v].file in w'.files && w.versions[v].file in w.files ==>
      v in w'.versions && w'.versions[v] == w.versions[v]
  }

  /** Nothing happens to files and versions. */
  lemma NothingFollows(w: World, op: Op, w': World)
    requires w'.files == w.files && w'.versions == w.versions && w.next <= w'.next
    requires forall f :: f in w.files ==> !Takes(w, op, f) && !Updates(w, op, f)
    ensures FilesFollow(w, op, w') && VersionsFollow(w, w')
  {
  }

  lemma GainingFollows(w: World, op: Op, w': World, f: Id, file: File)
    requires Issues(w, w', f) && Gains(w.files, w'.files, f, file)
    requires forall v :: v in w.versions ==> v in w'.versions && w'.versions[v] == w.versions[v]
    requires forall g :: g in w.files ==> !Takes(w, op, g) && !Updates(w, op, g)
    ensures FilesFollow(w, op, w') && VersionsFollow(w, w')
  {
  }

  lemma LosingFollows(w: World, op: Op, w': World, gone: iset<Id>)
    requires Loses(w.files, w'.files, gone) && w.next <= w'.next
    requires forall v :: v in w.versions && w.versions[v].file !in gone ==>
               v in w'.versions && w'.versions[v] == w.versions[v]
    requires forall g :: g in w.files ==> (Takes(w, op, g) <==> g in gone) && !Updates(w, op, g)
    ensures FilesFollow(w, op, w') && VersionsFollow(w, w')
  {
    hide Takes, Updates;
  }

  lemma UploadFollows(w: World, op: Op, w': World)
    requires Orderly(w) && Defined(w, op) && Step(w, op, w') && op.OpUpload?
    ensures FilesFollow(w, op, w') && VersionsFollow(w, w')
  {
    hide Orderly, Defined, Upload, FilesFollow, VersionsFollow;
    UploadMakes(w, op.d, op.name, op.contentType, op.folder, op.versionId);
    var r := Upload(w, op.d, op.name, op.contentType, op.folder, op.versionId).1;
    if r.Ok? {
      GainingFollows(w, op, w', r.value, w'.files[r.value]);
    } else {
      NothingFollows(w, op, w');
    }
  }

  lemma UploadLocalFollows(w: World, op: Op, w': World)
    requires Orderly(w) && Defined(w, op) && Step(w, op, w') && op.OpUploadLocal?
    ensures FilesFollow(w, op, w') && VersionsFollow(w, w')
  {
    hide Orderly, Defined, UploadLocal, FilesFollow, VersionsFollow;
    UploadLocalMakes(w, op.d, op.name, op.contentType, op.folder, op.cleared);
    var r := UploadLocal(w, op.d, op.name, op.contentType, op.folder, op.cleared).1;
    if r.Ok? {
      GainingFollows(w, op, w', r.value, w'.files[r.value]);
    } else {
      NothingFollows(w, op, w');
    }
  }

  lemma UpdateFollows(w: World, op: Op, w': World)
    requires Orderly(w) && Defined(w, op) && Step(w, op, w') && op.OpUpdateFile?
    ensures FilesFollow(w, op, w') && VersionsFollow(w, w')
  {
    hide Orderly, Defined, UpdateFile;
    UpdateFileSets(w, op.f, op.name, op.contentType, op.versionId);
  }

  lemma DeleteFileFollows(w: World, op: Op, w': World)
    requires Defined(w, op) && Step(w, op, w') && op.OpDeleteFile?
    ensures FilesFollow(w, op, w') && VersionsFollow(w, w')
  {
    hide Defined, DeleteFile, FilesFollow, VersionsFollow;
    FileDeletionFollows(w, op.f);
  }

  lemma FileDeletionFollows(w: World, f: Id)
    ensures var op, w' := OpDeleteFile(f), DeleteFile(w, f).0; FilesFollow(w, op, w') && VersionsFollow(w, w')
  {
    hide DeleteFile, FilesFollow, VersionsFollow;
    var op, w' := OpDeleteFile(f), DeleteFile(w, f).0;
    DeleteFileTakes(w, f);
    if f in w.files {
      LosingFollows(w, op, w', iset{f});
    } else {
      NothingFollows(w, op, w');
    }
  }

  lemma DeleteFolderFollows(w: World, op: Op, w': World)
    requires Defined(w, op) && Step(w, op, w') && op.OpDeleteFolder?
    ensures FilesFollow(w, op, w') && VersionsFollow(w, w')
  {
    hide Defined, DeleteFolder, FilesFollow, VersionsFollow;
    FolderDeletionFollows(w, op.d, op.f);
  }

  lemma FolderDeletionFollows(w: World, d: Id, f: Id)
    ensures var op, w' := OpDeleteFolder(d, f), DeleteFolder(w, d, f).0; FilesFollow(w, op, w') && VersionsFollow(w, w')
  {
    hide DeleteFolder, LiesBelow, NotShared, FilesFollow, VersionsFollow, Loses, FoldersBelow;
    var op, w' := OpDeleteFolder(d, f), DeleteFolder(w, d, f).0;
    DeleteFolderTakes(w, d, f);
    if d in w.datasets && f in w.folders {
      TakenFollows(w, op, w', FilesBelow(w, d, f));
    } else {
      NothingFollows(w, op, w');
    }
  }

  lemma TakenFollows(w: World, op: Op, w': World, gone: iset<Id>)
    requires Loses(w.files, w'.files, gone) && w.next <= w'.next
    requires Loses(w.versions, w'.versions, VersionsOf(w.versions, gone))
    requires forall g :: g in w.files ==> (Takes(w, op, g) <==> g in gone) && !Updates(w, op, g)
    ensures FilesFollow(w, op, w') && VersionsFollow(w, w')
  {
    hide Takes, Updates, FilesFollow, VersionsFollow;
    LosingFollows(w, op, w', gone);
  }

  lemma DeleteDatasetFollows(w: World, op: Op, w': World)
    requires Defined(w, op) && Step(w, op, w') && op.OpDeleteDataset?
    ensures FilesFollow(w, op, w') && VersionsFollow(w, w')
  {
    hide Defined, DeleteDataset, ReleasesEmptied, LosesRoles, SharedInside, LastShared, ItsReleases, FilesFollow,
         VersionsFollow, Loses;
    DeleteDatasetTakes(w, op.d);
    if op.d in w.datasets {
      TakenFollows(w, op, w', FilesOfDataset(w, op.d));
    } else {
      NothingFollows(w, op, w');
    }
  }

  lemma ElsewhereFollows(w: World, op: Op, w': World)
    requires Orderly(w) && Defined(w, op) && Step(w, op, w')
    requires op.OpCreateDataset? || op.OpAddFolder? || op.OpPatchFolder? || IsMetadataOp(op) || op.OpFreeze? ||
             op.OpDeleteVersion?
    ensures w'.files == w.files && w'.versions == w.versions && w.next <= w'.next
  {
    if IsMetadataOp(op) {
      MetadataElsewhere(w, op, w');
      MetadataIssues(w, op, w');
    } else if op.OpFreeze? || op.OpDeleteVersion? {
      ReleaseElsewhere(w, op, w');
    } else {
      hide Orderly;
    }
  }

  lemma MetadataIssues(w: World, op: Op, w': World)
    requires Defined(w, op) && Step(w, op, w') && IsMetadataOp(op)
    ensures w.next <= w'.next
  {
    hide MetadataFor, HasRecord, Accepts;
  }

  lemma ReleaseElsewhere(w: World, op: Op, w': World)
    requires Defined(w, op) && Step(w, op, w') && (op.OpFreeze? || op.OpDeleteVersion?)
    ensures w'.files == w.files && w'.versions == w.versions && w.next <= w'.next
  {
    hide OnlyAdds, Snapshot, BrokenOff, ResourceCopied;
  }

  /** Every route, whatever it is called with. */
  lemma StepFollows(w: World, op: Op, w': World)
    requires Orderly(w) && Defined(w, op) && Step(w, op, w')
    ensures FilesFollow(w, op, w') && VersionsFollow(w, w')
  {
    hide Orderly, Defined, Step, FilesFollow, VersionsFollow;
    if op.OpUpload? {
      UploadFollows(w, op, w');
    } else if op.OpUploadLocal? {
      UploadLocalFollows(w, op, w');
    } else if op.OpUpdateFile? {
      UpdateFollows(w, op, w');
    } else if op.OpDeleteFile? {
      DeleteFileFollows(w, op, w');
    } else if op.OpDeleteFolder? {
      DeleteFolderFollows(w, op, w');
    } else if op.OpDeleteDataset? {
      DeleteDatasetFollows(w, op, w');
    } else {
      ElsewhereFollows(w, op, w');
      NothingFollows(w, op, w');
    }
  }

  // ----- Files over a run -----

  /** Route `j` of the run takes `f`. */
  ghost predicate TakenAt(ws: seq<World>, ops: seq<Op>, f: Id, j: nat)
    requires Run(ws, ops) && j < |ops|
  {
    f in ws[j].files && Takes(ws[j], ops[j], f)
  }

  lemma {:induction false} IdsGoUp(ws: seq<World>, ops: seq<Op>, j: nat, i: nat)
    requires Run(ws, ops) && Orderly(ws[0]) && j <= i <= |ops|
    ensures ws[j].next <= ws[i].next
    decreases i
  {
    hide Orderly, Step, Defined, Takes, Updates, VersionsFollow;
    if j < i {
      IdsGoUp(ws, ops, j, i - 1);
      RunKeepsOrder(ws, ops, i - 1);
      StepFollows(ws[i - 1], ops[i - 1], ws[i]);
    }
  }

  /** An id that was handed out and has no file any more never gets one again. */
  lemma OnceGone(w: World, op: Op, w': World, f: Id)
    requires Orderly(w) && Defined(w, op) && Step(w, op, w') && f < w.next
    ensures f in w'.files <==> f in w.files && !Takes(w, op, f)
  {
    hide Orderly, Defined, Step, Takes, Updates, VersionsFollow;
    StepFollows(w, op, w');
  }

  /** A file is there after a run exactly when no route of it took the file. */
  lemma {:induction false} FileStaysIff(ws: seq<World>, ops: seq<Op>, f: Id, i: nat)
    requires Run(ws, ops) && Orderly(ws[0]) && f in ws[0].files && i <= |ops|
    ensures f in ws[i].files <==> forall j :: 0 <= j < i ==> !TakenAt(ws, ops, f, j)
  {
    hide Orderly, Step, Defined, Takes;
    if i > 0 {
      FileStaysIff(ws, ops, f, i - 1);
      RunKeepsOrder(ws, ops, i - 1);
      IdsGoUp(ws, ops, 0, i - 1);
      FileWasIssued(ws[0], f);
      OnceGone(ws[i - 1], ops[i - 1], ws[i], f);
      assert TakenAt(ws, ops, f, i - 1) <==> f in ws[i - 1].files && Takes(ws[i - 1], ops[i - 1], f);
    }
  }

  lemma FileWasIssued(w: World, f: Id)
    requires Orderly(w) && f in w.files
    ensures f < w.next
  {
  }

  /** How many new versions routes `j`, ..., `i - 1` of the run make of `f`. */
  ghost function UpdatesBetween(ws: seq<World>, ops: seq<Op>, f: Id, j: nat, i: nat): nat
    requires Run(ws, ops) && j <= i <= |ops|
    decreases i
  {
    if i == j then 0
    else UpdatesBetween(ws, ops, f, j, i - 1) + if f in ws[i - 1].files && Updates(ws[i - 1], ops[i - 1], f) then 1 else 0
  }

  /** As long as it is there a file keeps its name, its place and its storage, and its version number counts its
      updates. */
  lemma {:induction false} FileCountsItsUpdates(ws: seq<World>, ops: seq<Op>, f: Id, j: nat, i: nat)
    requires Run(ws, ops) && Orderly(ws[0]) && j <= i <= |ops| && f in ws[j].files && f in ws[i].files
    ensures var file := ws[j].files[f];
            ws[i].files[f] == file.(versionId := ws[i].files[f].versionId,
                                    versionNum := file.versionNum + UpdatesBetween(ws, ops, f, j, i))
    decreases i
  {
    hide Orderly, Step, Defined, Takes, Updates, VersionsFollow;
    if j < i {
      WasThereBefore(ws, ops, f, j, i);
      FileCountsItsUpdates(ws, ops, f, j, i - 1);
      RunKeepsOrder(ws, ops, i - 1);
      RunSteps(ws, ops, i - 1);
      StepFollows(ws[i - 1], ops[i - 1], ws[i]);
    }
  }

  lemma RunSteps(ws: seq<World>, ops: seq<Op>, i: nat)
    requires Run(ws, ops) && i < |ops|
    ensures Defined(ws[i], ops[i]) && Step(ws[i], ops[i], ws[i + 1])
  {
  }

  lemma {:induction false} WasThereBefore(ws: seq<World>, ops: seq<Op>, f: Id, j: nat, i: nat)
    requires Run(ws, ops) && Orderly(ws[0]) && j < i <= |ops| && f in ws[j].files && f in ws[i].files
    ensures f in ws[i - 1].files
  {
    hide Orderly, Step, Defined, Takes;
    RunKeepsOrder(ws, ops, j);
    FileWasIssued(ws[j], f);
    IdsGoUp(ws, ops, j, i - 1);
    RunKeepsOrder(ws, ops, i - 1);
    OnceGone(ws[i - 1], ops[i - 1], ws[i], f);
  }

  // ----- Versions -----

  /** `v` is the version record of file `f` with number `num`. */
  predicate IsRecord(w: World, f: Id, num: int, v: Id) {
    v in w.versions && w.versions[v].file == f && w.versions[v].num == num
  }

  /** A download of a stored working file at a version is answered with 404 exactly when the number is not
      one of its versions, 1 up to the current one; otherwise it reads the file's own bytes at the id of the
      one record with that number, which for the current one is the file's. */
  lemma DownloadOfVersionIff(w: World, f: Id, num: int, r: Outcome<Download>)
    requires Orderly(w) && f in w.files && w.files[f].storage == Minio && Answer(w, f, Some(num), r)
    ensures r == Err(404) <==> !(1 <= num <= w.files[f].versionNum)
    ensures 1 <= num <= w.files[f].versionNum ==>
              exists v :: IsRecord(w, f, num, v) && r == Ok(Object(f, Some(w.versions[v].versionId)))
    ensures forall u, v :: IsRecord(w, f, num, u) && IsRecord(w, f, num, v) ==> u == v
    ensures num == w.files[f].versionNum ==> r == Ok(Object(f, Some(w.files[f].versionId)))
  {
    assert Recorded(w.versions, f, w.files[f]);
    assert forall v :: IsRecord(w, f, num, v) <==> Records(w.versions, v, f, num);
    assert forall v :: LooksUp(w, f, num, v) <==> IsRecord(w, f, num, v);
    assert HasRecord(w.versions, f, num) <==> 1 <= num <= w.files[f].versionNum;
    assert (exists v :: LooksUp(w, f, num, v)) <==> HasRecord(w.versions, f, num);
  }

  /** The other downloads: a local file is its path, without a version the newest bytes are read, a frozen
      file's from its origin, and what is in no collection is not found. */
  lemma DownloadOfNewest(w: World, f: Id, version: Option<int>, r: Outcome<Download>)
    requires Orderly(w) && Answer(w, f, version, r)
    ensures f !in w.files && f !in w.frozenFiles ==> r == Err(404)
    ensures f in w.files && w.files[f].storage == Local ==> r == Ok(LocalPath(f))
    ensures f in w.frozenFiles && w.frozenFiles[f].storage == Local ==> r == Ok(LocalPath(f))
    ensures f in w.files && w.files[f].storage == Minio && version == None ==> r == Ok(Object(f, None))
    ensures f in w.frozenFiles && w.frozenFiles[f].storage == Minio && version == None ==>
              w.frozenFiles[f].origin.Some? && r == Ok(Object(w.frozenFiles[f].origin.value, None))
  {
  }

  lemma {:induction false} RecordStays(ws: seq<World>, ops: seq<Op>, f: Id, v: Id, j: nat, i: nat)
    requires Run(ws, ops) && Orderly(ws[0]) && j <= i <= |ops| && f in ws[j].files && f in ws[i].files
    requires v in ws[j].versions && ws[j].versions[v].file == f
    ensures v in ws[i].versions && ws[i].versions[v] == ws[j].versions[v]
    decreases i
  {
    hide Orderly, Step, Defined, Takes, Updates, FilesFollow;
    if j < i {
      WasThereBefore(ws, ops, f, j, i);
      RecordStays(ws, ops, f, v, j, i - 1);
      RunKeepsOrder(ws, ops, i - 1);
      RunSteps(ws, ops, i - 1);
      StepFollows(ws[i - 1], ops[i - 1], ws[i]);
    }
  }

  /** A version once current is what its number leads to ever after, as long as the file is there. */
  lemma CurrentVersionStays(ws: seq<World>, ops: seq<Op>, f: Id, j: nat, i: nat, r: Outcome<Download>)
    requires Run(ws, ops) && Orderly(ws[0]) && j <= i <= |ops| && f in ws[j].files && f in ws[i].files
    requires ws[j].files[f].storage == Minio && Answer(ws[i], f, Some(ws[j].files[f].versionNum), r)
    ensures r == Ok(Object(f, Some(ws[j].files[f].versionId)))
  {
    hide Orderly, Answer, Step, Defined, Takes;
    RunKeepsOrder(ws, ops, j);
    RunKeepsOrder(ws, ops, i);
    FileCountsItsUpdates(ws, ops, f, j, i);
    var num := ws[j].files[f].versionNum;
    var v := RecordOfCurrent(ws[j], f);
    RecordStays(ws, ops, f, v, j, i);
    DownloadOfVersionIff(ws[i], f, num, r);
    assert IsRecord(ws[i], f, num, v);
  }

  lemma RecordOfCurrent(w: World, f: Id) returns (v: Id)
    requires Orderly(w) && f in w.files && w.files[f].storage == Minio
    ensures IsRecord(w, f, w.files[f].versionNum, v) && w.versions[v].versionId == w.files[f].versionId
    ensures 1 <= w.files[f].versionNum
  {
    assert Recorded(w.versions, f, w.files[f]);
    assert HasRecord(w.versions, f, w.files[f].versionNum);
    v :| Records(w.versions, v, f, w.files[f].versionNum);
  }

  /** So the number of each version leads to the bytes the update that made it brought in. */
  lemma DownloadReadsTheUpdate(ws: seq<World>, ops: seq<Op>, f: Id, j: nat, i: nat, r: Outcome<Download>)
    requires Run(ws, ops) && Orderly(ws[0]) && j < i <= |ops| && f in ws[j].files && f in ws[i].files
    requires ws[j].files[f].storage == Minio && Updates(ws[j], ops[j], f)
    requires Answer(ws[i], f, Some(ws[j].files[f].versionNum + 1), r)
    ensures r == Ok(Object(f, Some(ops[j].versionId)))
  {
    hide Orderly, Answer, Step, Defined, VersionsFollow;
    RunKeepsOrder(ws, ops, j);
    RunSteps(ws, ops, j);
    StepFollows(ws[j], ops[j], ws[j + 1]);
    CurrentVersionStays(ws, ops, f, j + 1, i, r);
  }

  lemma UploadedIsThere(w: World, op: Op, w': World, f: Id)
    requires Orderly(w) && Defined(w, op) && Step(w, op, w') && op.OpUpload?
    requires Upload(w, op.d, op.name, op.contentType, op.folder, op.versionId).1 == Ok(f)
    ensures f in w'.files
    ensures w'.files[f] == File(op.name, op.contentType, op.d, op.folder, Minio, op.versionId, 1, None)
  {
    hide Orderly, Defined, Upload;
    UploadMakes(w, op.d, op.name, op.contentType, op.folder, op.versionId);
  }

  /** ... and number 1 to what was uploaded. */
  lemma DownloadReadsTheUpload(ws: seq<World>, ops: seq<Op>, f: Id, j: nat, i: nat, r: Outcome<Download>)
    requires Run(ws, ops) && Orderly(ws[0]) && j < i <= |ops| && f in ws[i].files && ops[j].OpUpload?
    requires Upload(ws[j], ops[j].d, ops[j].name, ops[j].contentType, ops[j].folder, ops[j].versionId).1 == Ok(f)
    requires Answer(ws[i], f, Some(1), r)
    ensures r == Ok(Object(f, Some(ops[j].versionId)))
    ensures var file := ws[i].files[f];
            file.name == ops[j].name && file.contentType == ops[j].contentType && file.dataset == ops[j].d &&
            file.folder == ops[j].folder && file.storage == Minio && file.origin == None
  {
    hide Orderly, Answer, Step, Defined, Takes;
    RunKeepsOrder(ws, ops, j);
    RunSteps(ws, ops, j);
    UploadedIsThere(ws[j], ops[j], ws[j + 1], f);
    CurrentVersionStays(ws, ops, f, j + 1, i, r);
    FileCountsItsUpdates(ws, ops, f, j + 1, i);
  }

  // ----- Releases -----

  /** The route deletes the version that is release `fd`. */
  predicate Marks(w: World, op: Op, fd: Id)
    requires fd in w.releases
  {
    op.OpDeleteVersion? && w.releases[fd].origin == op.d && w.releases[fd].number == op.number
  }

  /** A release record goes with its dataset and is marked when its version is deleted; nothing else ever changes
      it, and a new one is not marked. */
  ghost predicate ReleasesFollow(w: World, op: Op, w': World) {
    && (forall fd :: fd in w.releases ==>
          (fd in w'.releases <==> !(op.OpDeleteDataset? && op.d == w.releases[fd].origin)))
    && (forall fd :: fd in w.releases && fd in w'.releases ==>
          w'.releases[fd] == if Marks(w, op, fd) then w.releases[fd].(deleted := true) else w.releases[fd])
    && (forall fd :: fd in w'.releases && fd !in w.releases ==>
          op.OpFreeze? && op.d == w'.releases[fd].origin && !w'.releases[fd].deleted && w.next <= fd)
  }

  lemma OnlyThatVersion(w: World, fd: Id, d: Id, number: int)
    requires Orderly(w) && fd in w.releases && w.releases[fd].origin == d && w.releases[fd].number == number
    ensures forall gd :: IsVersion(w.releases, gd, d, number) <==> gd == fd
  {
    assert IsVersion(w.releases, fd, d, number);
  }

  lemma VersionDeletionFollows(w: World, op: Op, w': World)
    requires Orderly(w) && Defined(w, op) && Step(w, op, w') && op.OpDeleteVersion?
    ensures ReleasesFollow(w, op, w')
  {
    hide Orderly, SoftDelete, ReleasesFollow;
    if HasVersion(w.releases, op.d, op.number) {
      var fd :| IsVersion(w.releases, fd, op.d, op.number) && w' == SoftDelete(w, fd);
      MarkingFollows(w, op.d, op.number, fd);
    } else {
      NoVersionFollows(w, op.d, op.number);
    }
  }

  lemma MarkingFollows(w: World, d: Id, number: int, fd: Id)
    requires Orderly(w) && IsVersion(w.releases, fd, d, number)
    ensures ReleasesFollow(w, OpDeleteVersion(d, number), SoftDelete(w, fd))
  {
    DeleteVersionTakes(w, fd);
    OnlyThatVersion(w, fd, d, number);
    hide SoftDelete, ReleasesEmptied, LosesRoles, LastShared, Orderly;
    forall gd | gd in w.releases ensures Marks(w, OpDeleteVersion(d, number), gd) <==> gd == fd {
      MarksVersions(w, d, number, gd);
    }
  }

  lemma MarksVersions(w: World, d: Id, number: int, fd: Id)
    requires fd in w.releases
    ensures Marks(w, OpDeleteVersion(d, number), fd) <==> IsVersion(w.releases, fd, d, number)
  {
  }

  lemma NoVersionFollows(w: World, d: Id, number: int)
    requires !HasVersion(w.releases, d, number)
    ensures ReleasesFollow(w, OpDeleteVersion(d, number), w)
  {
    forall fd | fd in w.releases ensures !Marks(w, OpDeleteVersion(d, number), fd) {
      MarksVersions(w, d, number, fd);
    }
  }

  lemma DatasetDeletionFollows(w: World, op: Op, w': World)
    requires Orderly(w) && Defined(w, op) && Step(w, op, w') && op.OpDeleteDataset?
    ensures ReleasesFollow(w, op, w')
  {
    hide Orderly, DeleteDataset, ReleasesFollow;
    DatasetReleasesFollow(w, op.d);
  }

  lemma DatasetReleasesFollow(w: World, d: Id)
    requires Orderly(w)
    ensures ReleasesFollow(w, OpDeleteDataset(d), DeleteDataset(w, d).0)
  {
    assert forall fd :: fd in w.releases ==> w.releases[fd].origin in w.datasets;
    hide Orderly, DeleteDataset;
    if d in w.datasets {
      ReleasesTaken(w, d);
    } else {
      MissingDataset(w, d);
    }
  }

  lemma ReleasesTaken(w: World, d: Id)
    requires d in w.datasets
    ensures var w' := DeleteDataset(w, d).0;
            && (forall fd :: fd in w.releases ==> (fd in w'.releases <==> w.releases[fd].origin != d))
            && forall fd :: fd in w'.releases ==> fd in w.releases && w'.releases[fd] == w.releases[fd]
  {
    hide DeleteDataset, ReleasesEmptied, LosesRoles, WorkingEmptied, SharedInside, LastShared;
    DeleteDatasetTakes(w, d);
  }

  lemma FreezeFollows(w: World, op: Op, w': World)
    requires Orderly(w) && Defined(w, op) && Step(w, op, w') && op.OpFreeze?
    ensures ReleasesFollow(w, op, w')
  {
    hide Orderly, FreezeEnded, ReleasesFollow;
    if op.d in w.datasets {
      var n :| FreezeEnded(w, op.d, n, w');
      FrozenReleasesFollow(w, op.d, n, w');
    } else {
      SameReleasesFollow(w, op, w');
    }
  }

  lemma FrozenReleasesFollow(w: World, d: Id, n: nat, w': World)
    requires Orderly(w) && FreezeEnded(w, d, n, w')
    ensures ReleasesFollow(w, OpFreeze(d), w')
  {
    NextIsNew(w);
    hide FreezeEnded, Orderly, OnlyAdds, WorkingSame;
    FreezeOnlyAdds(w, d, n, w');
  }

  lemma NextIsNew(w: World)
    requires Orderly(w)
    ensures w.next !in w.releases
  {
  }

  lemma SameReleasesFollow(w: World, op: Op, w': World)
    requires w'.releases == w.releases && (!IsReleaseOp(op) || op.OpFreeze?)
    ensures ReleasesFollow(w, op, w')
  {
  }

  lemma ReleaseStepFollows(w: World, op: Op, w': World)
    requires Orderly(w) && Defined(w, op) && Step(w, op, w')
    ensures ReleasesFollow(w, op, w')
  {
    hide Orderly, Defined, Step, ReleasesFollow;
    if op.OpDeleteVersion? {
      VersionDeletionFollows(w, op, w');
    } else if op.OpDeleteDataset? {
      DatasetDeletionFollows(w, op, w');
    } else if op.OpFreeze? {
      FreezeFollows(w, op, w');
    } else {
      WorkingStepLeavesFrozen(w, op, w');
      SameReleasesFollow(w, op, w');
    }
  }

  /** Route `k` of the run deletes the version that is release `fd`. */
  predicate MarkedAt(ws: seq<World>, ops: seq<Op>, fd: Id, k: nat) {
    k < |ops| && k < |ws| && fd in ws[k].releases && Marks(ws[k], ops[k], fd)
  }

  /** Over any run, as long as its dataset is there: a release is marked exactly when it was before or a version
      deletion has hit it, and keeps name, dataset and number. */
  lemma {:induction false} MarkedIffDeleted(ws: seq<World>, ops: seq<Op>, fd: Id, j: nat, i: nat)
    requires Run(ws, ops) && Orderly(ws[0]) && j <= i <= |ops| && fd in ws[j].releases
    requires forall k :: j <= k < i ==> ops[k] != OpDeleteDataset(ws[j].releases[fd].origin)
    ensures fd in ws[i].releases
    ensures var release := ws[j].releases[fd];
            ws[i].releases[fd] ==
            release.(deleted := release.deleted || exists k :: j <= k < i && MarkedAt(ws, ops, fd, k))
    decreases i
  {
    hide Orderly, Step, Defined, Marks;
    if j < i {
      MarkedIffDeleted(ws, ops, fd, j, i - 1);
      RunKeepsOrder(ws, ops, i - 1);
      ReleaseStepFollows(ws[i - 1], ops[i - 1], ws[i]);
      assert MarkedAt(ws, ops, fd, i - 1) <==> Marks(ws[i - 1], ops[i - 1], fd);
    }
  }

  /** The request for a release shows it exactly until its version is deleted. */
  lemma ShownIffNotDeleted(ws: seq<World>, ops: seq<Op>, d: Id, number: int, fd: Id, j: nat, i: nat, r: Outcome<Id>)
    requires Run(ws, ops) && Orderly(ws[0]) && j <= i <= |ops| && IsVersion(ws[j].releases, fd, d, number)
    requires !ws[j].releases[fd].deleted && forall k :: j <= k < i ==> ops[k] != OpDeleteDataset(d)
    requires Shown(ws[i].releases, d, number, r)
    ensures r == if exists k :: j <= k < i && ops[k] == OpDeleteVersion(d, number) then Err(404) else Ok(fd)
  {
    hide Orderly, Step, Defined;
    MarkedIffDeleted(ws, ops, fd, j, i);
    RunKeepsOrder(ws, ops, i);
    OnlyThatVersion(ws[i], fd, d, number);
    forall k | j <= k < i ensures MarkedAt(ws, ops, fd, k) <==> ops[k] == OpDeleteVersion(d, number) {
      MarkedIffDeleted(ws, ops, fd, j, k);
    }
  }

  /** A number not given to any release of the dataset shows nothing. */
  lemma UnknownVersionIsNotShown(w: World, d: Id, number: int, r: Outcome<Id>)
    requires Orderly(w) && Shown(w.releases, d, number, r)
    ensures r.Err? ==> r == Err(404)
    ensures (forall fd :: fd in w.releases ==> !(w.releases[fd].origin == d && w.releases[fd].number == number)) ==> r.Err?
    ensures r.Ok? ==> r.value in w.releases && w.releases[r.value].origin == d && w.releases[r.value].number == number
  {
  }
}
