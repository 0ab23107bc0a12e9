/** The records of datasets, folders and files, and the roles on them, in one run. */
module JointRuns {
  import opened Types
  import opened Forest
  import opened FolderFreeze
  import opened State
  import opened Invariant
  import opened Steps
  import opened ReleaseSteps
  import opened Runs
  import opened Multisets
  import opened Roles
  import R = RoleRuns

  function DatasetsOf(files: map<Id, File>): map<Id, Id> {
    map f | f in files :: files[f].dataset
  }

  /** Both show the same datasets, releases, authorization records and files, and the same next id. */
  ghost predicate Mirrors(w: World, s: Access) {
    && s.working == w.datasets.Keys && s.frozen == w.releases.Keys && s.auths == w.auths && s.next == w.next
    && s.files == DatasetsOf(w.files)
  }

  function VersionsOf(releases: map<Id, Release>, d: Id, number: int): set<Id> {
    set fd | fd in releases && IsVersion(releases, fd, d, number)
  }

  /** What a route on records means for the roles. */
  ghost function Shadow(w: World, op: Op, w': World): Option<R.RoleOp>
    requires Defined(w, op)
  {
    match op
    case OpCreateDataset(_) => Some(R.OpOpenDataset(w.next, w.next + 1))
    case OpUpload(d, _, _, folder, _) =>
      if d in w.datasets && FolderThere(w, folder) then Some(R.OpPutFile(w.next, d)) else None
    case OpUploadLocal(d, _, _, folder, cleared) =>
      if d in w.datasets && cleared && FolderThere(w, folder) then Some(R.OpPutFile(w.next, d)) else None
    case OpUpdateFile(f, name, contentType, _) =>
      if f in w.files && name == w.files[f].name && contentType == w.files[f].contentType
      then Some(R.OpPutFile(f, w.files[f].dataset)) else None
    case OpDeleteFile(f) => Some(R.OpTakeFiles({f}))
    case OpDeleteFolder(d, f) => Some(R.OpTakeFiles(w.files.Keys - w'.files.Keys))
    case OpFreeze(d) =>
      if d !in w.datasets then None
      else
        var last: int := w'.next - 1;
        Some(R.OpOpenRelease(w.next, if Closed(Reached(w.folders, d)) && last >= 0 then Some(last) else None))
    case OpDeleteVersion(d, number) => Some(R.OpCloseRecords(VersionsOf(w.releases, d, number)))
    case OpDeleteDataset(d) =>
      if d in w.datasets then Some(R.OpCloseDataset(d, ReleasesOf(w.releases, d))) else None
    case _ => None
  }

  /** The roles after the shadow of a route; ids handed out to other records are passed over. */
  ghost function Shadowed(s: Access, rop: Option<R.RoleOp>, next: Id): Access
    requires rop.Some? ==> R.Possible(s, rop.value)
  {
    (if rop.Some? then R.After(s, rop.value) else s).(next := next)
  }

  lemma MirrorsAfterCreate(w: World, name: string, s: Access)
    requires Orderly(w) && Mirrors(w, s)
    ensures R.Possible(s, R.OpOpenDataset(w.next, w.next + 1))
    ensures Mirrors(CreateDataset(w, name).0, Shadowed(s, Some(R.OpOpenDataset(w.next, w.next + 1)), w.next + 2))
  {
    NextIsUnused(w, s);
    hide Orderly, R.Unused;
  }

  lemma MirrorsAfterPut(w: World, w': World, f: Id, d: Id, s: Access)
    requires Mirrors(w, s) && d in w.datasets && f in w'.files && w'.files[f].dataset == d
    requires forall g :: g in w'.files <==> g in w.files || g == f
    requires forall g :: g in w.files && g != f ==> w'.files[g] == w.files[g]
    requires w'.datasets == w.datasets && w'.releases == w.releases && w'.auths == w.auths
    ensures R.Possible(s, R.OpPutFile(f, d)) && Mirrors(w', Shadowed(s, Some(R.OpPutFile(f, d)), w'.next))
  {
    assert DatasetsOf(w'.files) == DatasetsOf(w.files)[f := d];
  }

  lemma MirrorsAfterTake(w: World, w': World, fs: set<Id>, s: Access)
    requires Mirrors(w, s) && w'.files == w.files - fs
    requires w'.datasets == w.datasets && w'.releases == w.releases && w'.auths == w.auths
    ensures R.Possible(s, R.OpTakeFiles(fs)) && Mirrors(w', Shadowed(s, Some(R.OpTakeFiles(fs)), w'.next))
  {
    assert DatasetsOf(w'.files) == DatasetsOf(w.files) - fs;
  }

  lemma MirrorsAfterOpen(w: World, w': World, fd: Id, owner: Option<Id>, s: Access)
    requires Mirrors(w, s) && R.Unused(s, fd) && (owner.Some? ==> w.next <= owner.value)
    requires w'.datasets == w.datasets && w'.files == w.files && w'.releases.Keys == w.releases.Keys + {fd}
    requires w'.auths == if owner.Some? then w.auths[owner.value := Authorization(fd, Owner, [], [])] else w.auths
    ensures R.Possible(s, R.OpOpenRelease(fd, owner))
    ensures Mirrors(w', Shadowed(s, Some(R.OpOpenRelease(fd, owner)), w'.next))
  {
  }

  lemma NextIsUnused(w: World, s: Access)
    requires Orderly(w) && Mirrors(w, s)
    ensures R.Unused(s, w.next)
  {
  }

  lemma FreezeRecords(w: World, d: Id, n: nat, w': World)
    requires FreezeEnded(w, d, n, w')
    ensures w.next < w'.next && w'.datasets == w.datasets && w'.files == w.files
    ensures w'.releases.Keys == w.releases.Keys + {w.next}
    ensures w'.auths == if Closed(Reached(w.folders, d)) then w.auths[w'.next - 1 := Authorization(w.next, Owner, [], [])]
                        else w.auths
  {
    hide OnlyAdds, Snapshot, BrokenOff, ResourceCopied, Reached, Closed;
  }

  lemma MirrorsAfterFreeze(w: World, d: Id, n: nat, w': World, s: Access)
    requires Orderly(w) && Mirrors(w, s) && d in w.datasets && FreezeEnded(w, d, n, w')
    requires Defined(w, OpFreeze(d))
    ensures var rop := Shadow(w, OpFreeze(d), w');
            R.Possible(s, rop.value) && Mirrors(w', Shadowed(s, rop, w'.next))
  {
    hide FreezeEnded, Reached, Closed, Orderly, Mirrors, Shadowed, R.Possible, R.Unused;
    FreezeRecords(w, d, n, w');
    NextIsUnused(w, s);
    MirrorsAfterOpen(w, w', w.next, Shadow(w, OpFreeze(d), w').value.owner, s);
  }

  lemma MirrorsAfterClose(w: World, ds: set<Id>, w': World, s: Access)
    requires Orderly(w) && Mirrors(w, s) && ds <= w.releases.Keys
    requires RecordsDropped(w, ds, w')
    ensures R.Possible(s, R.OpCloseRecords(ds)) && Mirrors(w', Shadowed(s, Some(R.OpCloseRecords(ds)), w'.next))
  {
  }

  lemma MirrorsAfterVersion(w: World, d: Id, number: int, w': World, s: Access)
    requires Orderly(w) && Mirrors(w, s) && Step(w, OpDeleteVersion(d, number), w')
    ensures var rop := Shadow(w, OpDeleteVersion(d, number), w');
            R.Possible(s, rop.value) && Mirrors(w', Shadowed(s, rop, w'.next))
  {
    VersionRecords(w, d, number, w');
    hide Step, Orderly, Mirrors, Shadowed, R.Possible, IsVersion, RecordsDropped;
    MirrorsAfterClose(w, VersionsOf(w.releases, d, number), w', s);
  }

  lemma VersionRecords(w: World, d: Id, number: int, w': World)
    requires Orderly(w) && Step(w, OpDeleteVersion(d, number), w')
    ensures RecordsDropped(w, VersionsOf(w.releases, d, number), w')
  {
    hide Orderly, SoftDelete, RecordsDropped;
    if HasVersion(w.releases, d, number) {
      var fd :| IsVersion(w.releases, fd, d, number) && w' == SoftDelete(w, fd);
      OnlyOne(w, d, number, fd);
      DroppedAuths(w, fd);
    } else {
      assert VersionsOf(w.releases, d, number) == {};
      NoneDropped(w);
    }
  }

  /** Exactly the authorization records of `ds` are gone. */
  ghost predicate RecordsDropped(w: World, ds: set<Id>, w': World) {
    && w'.datasets == w.datasets && w'.releases.Keys == w.releases.Keys && w'.files == w.files
    && w'.auths == map a | a in w.auths && w.auths[a].dataset !in ds :: w.auths[a]
  }

  lemma NoneDropped(w: World)
    ensures RecordsDropped(w, {}, w)
  {
  }

  lemma OnlyOne(w: World, d: Id, number: int, fd: Id)
    requires Orderly(w) && IsVersion(w.releases, fd, d, number)
    ensures VersionsOf(w.releases, d, number) == {fd}
  {
  }

  lemma DroppedAuths(w: World, fd: Id)
    requires fd in w.releases
    ensures RecordsDropped(w, {fd}, SoftDelete(w, fd))
  {
  }

  lemma MirrorsAfterDelete(w: World, d: Id, s: Access)
    requires Orderly(w) && Mirrors(w, s) && d in w.datasets
    ensures var w', rop := DeleteDataset(w, d).0, R.OpCloseDataset(d, ReleasesOf(w.releases, d));
            R.Possible(s, rop) && Mirrors(w', Shadowed(s, Some(rop), w'.next))
  {
    DeleteDatasetWorking(w, d);
    DeleteDatasetAuths(w, d);
    DeleteDatasetOwned(w, d);
    assert ReleasesOf(w.releases, d) !! w.datasets.Keys;
    hide DeleteDataset, Orderly, Shadowed, R.Possible;
    MirrorsAfterCloseDataset(w, DeleteDataset(w, d).0, d, ReleasesOf(w.releases, d), s);
  }

  lemma MirrorsAfterCloseDataset(w: World, w': World, d: Id, gone: set<Id>, s: Access)
    requires Mirrors(w, s) && gone <= w.releases.Keys && gone !! w.datasets.Keys
    requires w'.datasets == w.datasets - {d} && w'.files == w.files - FilesOf(w.files, {d})
    requires w'.releases == w.releases - gone
    requires w'.auths == map a | a in w.auths && w.auths[a].dataset !in gone + {d} :: w.auths[a]
    ensures R.Possible(s, R.OpCloseDataset(d, gone))
    ensures Mirrors(w', Shadowed(s, Some(R.OpCloseDataset(d, gone)), w'.next))
  {
    assert FilesUnder(s, d) == FilesOf(w.files, {d});
    assert DatasetsOf(w'.files) == DatasetsOf(w.files) - FilesUnder(s, d);
  }

  lemma MirrorsOther(w: World, w': World, s: Access)
    requires Mirrors(w, s) && w'.files == w.files
    requires w'.datasets == w.datasets && w'.releases == w.releases && w'.auths == w.auths
    ensures Mirrors(w', Shadowed(s, None, w'.next))
  {
  }

  lemma FileShadow(w: World, op: Op, w': World, s: Access)
    requires Mirrors(w, s) && R.Fresh(s) && Defined(w, op) && Step(w, op, w') && IsFileOp(op)
    ensures var rop := Shadow(w, op, w'); rop.Some? ==> R.Possible(s, rop.value)
    ensures var rop := Shadow(w, op, w'); Mirrors(w', Shadowed(s, rop, w'.next))
  {
    hide Mirrors, Shadowed, R.Possible, R.Fresh, Defined, Step, Shadow;
    if op.OpUpload? {
      UploadShadow(w, op, w', s);
    } else if op.OpUploadLocal? {
      UploadLocalShadow(w, op, w', s);
    } else if op.OpUpdateFile? {
      UpdateShadow(w, op, w', s);
    } else {
      DeleteShadow(w, op, w', s);
    }
  }

  lemma UploadShadow(w: World, op: Op, w': World, s: Access)
    requires Mirrors(w, s) && R.Fresh(s) && Defined(w, op) && Step(w, op, w') && op.OpUpload?
    ensures var rop := Shadow(w, op, w'); rop.Some? ==> R.Possible(s, rop.value)
    ensures var rop := Shadow(w, op, w'); Mirrors(w', Shadowed(s, rop, w'.next))
  {
    MirrorsOther(w, w, s);
    hide Mirrors, Shadowed, R.Possible, R.Fresh, StoreFile, InsertFile, StoreVersion, FolderThere;
    if op.d in w.datasets && FolderThere(w, op.folder) {
      StoredMirrors(w, File(op.name, op.contentType, op.d, op.folder, Minio, op.versionId, 1, None), s);
    }
  }

  lemma UploadLocalShadow(w: World, op: Op, w': World, s: Access)
    requires Mirrors(w, s) && R.Fresh(s) && Defined(w, op) && Step(w, op, w') && op.OpUploadLocal?
    ensures var rop := Shadow(w, op, w'); rop.Some? ==> R.Possible(s, rop.value)
    ensures var rop := Shadow(w, op, w'); Mirrors(w', Shadowed(s, rop, w'.next))
  {
    MirrorsOther(w, w, s);
    hide Mirrors, Shadowed, R.Possible, R.Fresh, StoreFile, InsertFile, StoreVersion, FolderThere;
    if op.d in w.datasets && op.cleared && FolderThere(w, op.folder) {
      InsertedMirrors(w, File(op.name, op.contentType, op.d, op.folder, Local, "N/A", 0, None), s);
    }
  }

  lemma UpdateShadow(w: World, op: Op, w': World, s: Access)
    requires Mirrors(w, s) && R.Fresh(s) && Defined(w, op) && Step(w, op, w') && op.OpUpdateFile?
    ensures var rop := Shadow(w, op, w'); rop.Some? ==> R.Possible(s, rop.value)
    ensures var rop := Shadow(w, op, w'); Mirrors(w', Shadowed(s, rop, w'.next))
  {
    MirrorsOther(w, w, s);
    hide Mirrors, Shadowed, R.Possible, R.Fresh, StoreFile, InsertFile, StoreVersion, FolderThere;
    if op.f in w.files && op.name == w.files[op.f].name && op.contentType == w.files[op.f].contentType {
      UpdatedMirrors(w, op.f, op.versionId, s);
    }
  }

  lemma DeleteShadow(w: World, op: Op, w': World, s: Access)
    requires Mirrors(w, s) && R.Fresh(s) && Defined(w, op) && Step(w, op, w') && op.OpDeleteFile?
    ensures var rop := Shadow(w, op, w'); rop.Some? ==> R.Possible(s, rop.value)
    ensures var rop := Shadow(w, op, w'); Mirrors(w', Shadowed(s, rop, w'.next))
  {
    hide Mirrors, Shadowed, R.Possible, R.Fresh, DeleteFile;
    DeletedFile(w, op.f);
    MirrorsAfterTake(w, w', {op.f}, s);
  }

  lemma StoredMirrors(w: World, file: File, s: Access)
    requires Mirrors(w, s) && file.dataset in w.datasets
    ensures var w', rop := StoreFile(w, file), R.OpPutFile(w.next, file.dataset);
            R.Possible(s, rop) && Mirrors(w', Shadowed(s, Some(rop), w'.next))
  {
    MirrorsAfterPut(w, StoreFile(w, file), w.next, file.dataset, s);
  }

  lemma InsertedMirrors(w: World, file: File, s: Access)
    requires Mirrors(w, s) && file.dataset in w.datasets
    ensures var w', rop := InsertFile(w, file), R.OpPutFile(w.next, file.dataset);
            R.Possible(s, rop) && Mirrors(w', Shadowed(s, Some(rop), w'.next))
  {
    MirrorsAfterPut(w, InsertFile(w, file), w.next, file.dataset, s);
  }

  lemma UpdatedMirrors(w: World, f: Id, versionId: string, s: Access)
    requires Mirrors(w, s) && R.Fresh(s) && f in w.files
    ensures var w', rop := StoreVersion(w, f, versionId), R.OpPutFile(f, w.files[f].dataset);
            R.Possible(s, rop) && Mirrors(w', Shadowed(s, Some(rop), w'.next))
  {
    assert s.files[f] in s.working;
    MirrorsAfterPut(w, StoreVersion(w, f, versionId), f, w.files[f].dataset, s);
  }

  lemma DeletedFile(w: World, f: Id)
    ensures var w' := DeleteFile(w, f).0;
            && w'.files == w.files - {f} && w'.datasets == w.datasets && w'.releases == w.releases && w'.auths == w.auths
  {
    hide DropUnconditionally;
  }

  lemma FolderShadow(w: World, op: Op, w': World, s: Access)
    requires Mirrors(w, s) && Defined(w, op) && Step(w, op, w') && IsFolderOp(op)
    ensures var rop := Shadow(w, op, w'); rop.Some? ==> R.Possible(s, rop.value)
    ensures var rop := Shadow(w, op, w'); Mirrors(w', Shadowed(s, rop, w'.next))
  {
    FolderRecords(w, op, w');
    hide Step, Defined, Mirrors, Shadowed, R.Possible;
    if op.OpDeleteFolder? {
      MirrorsAfterTake(w, w', w.files.Keys - w'.files.Keys, s);
    } else {
      MirrorsOther(w, w', s);
    }
  }

  lemma FolderRecords(w: World, op: Op, w': World)
    requires Defined(w, op) && Step(w, op, w') && IsFolderOp(op)
    ensures w'.datasets == w.datasets && w'.releases == w.releases && w'.auths == w.auths
    ensures w'.files == w.files - (w.files.Keys - w'.files.Keys)
    ensures !op.OpDeleteFolder? ==> w'.files == w.files
  {
    hide Defined, DeleteFolder;
    match op
    case OpAddFolder(d, name, parent) =>
    case OpPatchFolder(d, f, name, parent) =>
    case OpDeleteFolder(d, f) => DeletedFolder(w, d, f);
  }

  lemma DeletedFolder(w: World, d: Id, f: Id)
    ensures var w' := DeleteFolder(w, d, f).0;
            && w'.datasets == w.datasets && w'.releases == w.releases && w'.auths == w.auths
            && w'.files == w.files - (w.files.Keys - w'.files.Keys)
  {
    hide DoomedBy;
    var w' := DeleteFolder(w, d, f).0;
    if d in w.datasets && f in w.folders {
      assert w'.files == w.files - FilesIn(w.files, DoomedBy(w, d, f));
    }
    assert w'.files == w.files - (w.files.Keys - w'.files.Keys);
  }

  lemma OtherShadow(w: World, op: Op, w': World, s: Access)
    requires Orderly(w) && Mirrors(w, s) && Defined(w, op) && Step(w, op, w') && !IsFileOp(op) && !IsFolderOp(op)
    ensures var rop := Shadow(w, op, w'); rop.Some? ==> R.Possible(s, rop.value)
    ensures var rop := Shadow(w, op, w'); Mirrors(w', Shadowed(s, rop, w'.next))
  {
    hide Mirrors, Shadowed, R.Possible, Orderly, Step, Defined, Shadow;
    if IsMetadataOp(op) {
      MetadataShadow(w, op, w', s);
    } else if op.OpCreateDataset? {
      CreateShadow(w, op, w', s);
    } else if op.OpFreeze? {
      FreezeShadow(w, op, w', s);
    } else if op.OpDeleteVersion? {
      MirrorsAfterVersion(w, op.d, op.number, w', s);
    } else {
      DeleteDatasetShadow(w, op, w', s);
    }
  }

  lemma MetadataShadow(w: World, op: Op, w': World, s: Access)
    requires Orderly(w) && Mirrors(w, s) && Defined(w, op) && Step(w, op, w') && IsMetadataOp(op)
    ensures var rop := Shadow(w, op, w'); rop.Some? ==> R.Possible(s, rop.value)
    ensures var rop := Shadow(w, op, w'); Mirrors(w', Shadowed(s, rop, w'.next))
  {
    MetadataElsewhere(w, op, w');
    MetadataRecords(w, op, w');
    hide Mirrors, Shadowed, R.Possible, Orderly, Step, Defined;
    MirrorsOther(w, w', s);
  }

  lemma CreateShadow(w: World, op: Op, w': World, s: Access)
    requires Orderly(w) && Mirrors(w, s) && Defined(w, op) && Step(w, op, w') && op.OpCreateDataset?
    ensures var rop := Shadow(w, op, w'); rop.Some? ==> R.Possible(s, rop.value)
    ensures var rop := Shadow(w, op, w'); Mirrors(w', Shadowed(s, rop, w'.next))
  {
    hide Mirrors, Shadowed, R.Possible, Orderly;
    MirrorsAfterCreate(w, op.name, s);
  }

  lemma FreezeShadow(w: World, op: Op, w': World, s: Access)
    requires Orderly(w) && Mirrors(w, s) && Defined(w, op) && Step(w, op, w') && op.OpFreeze?
    ensures var rop := Shadow(w, op, w'); rop.Some? ==> R.Possible(s, rop.value)
    ensures var rop := Shadow(w, op, w'); Mirrors(w', Shadowed(s, rop, w'.next))
  {
    hide Mirrors, Shadowed, R.Possible, Orderly, FreezeEnded, Reached, Closed;
    if op.d in w.datasets {
      var n :| FreezeEnded(w, op.d, n, w');
      MirrorsAfterFreeze(w, op.d, n, w', s);
    } else {
      MirrorsOther(w, w', s);
    }
  }

  lemma DeleteDatasetShadow(w: World, op: Op, w': World, s: Access)
    requires Orderly(w) && Mirrors(w, s) && Defined(w, op) && Step(w, op, w') && op.OpDeleteDataset?
    ensures var rop := Shadow(w, op, w'); rop.Some? ==> R.Possible(s, rop.value)
    ensures var rop := Shadow(w, op, w'); Mirrors(w', Shadowed(s, rop, w'.next))
  {
    hide Mirrors, Shadowed, R.Possible, Orderly;
    if op.d in w.datasets {
      MirrorsAfterDelete(w, op.d, s);
    } else {
      MirrorsOther(w, w', s);
    }
  }

  lemma MetadataRecords(w: World, op: Op, w': World)
    requires Defined(w, op) && Step(w, op, w') && IsMetadataOp(op)
    ensures w'.releases == w.releases && w'.auths == w.auths
  {
  }

  /** Every route on records casts a shadow the roles can follow, and both agree afterwards. */
  lemma ShadowFollows(w: World, op: Op, w': World, s: Access)
    requires Orderly(w) && Mirrors(w, s) && R.Fresh(s) && Defined(w, op) && Step(w, op, w')
    ensures var rop := Shadow(w, op, w'); rop.Some? ==> R.Possible(s, rop.value)
    ensures var rop := Shadow(w, op, w'); Mirrors(w', Shadowed(s, rop, w'.next))
  {
    hide Orderly, Mirrors, Shadowed, R.Possible, R.Fresh, Step, Defined, Shadow;
    if IsFileOp(op) {
      FileShadow(w, op, w', s);
    } else if IsFolderOp(op) {
      FolderShadow(w, op, w', s);
    } else {
      OtherShadow(w, op, w', s);
    }
  }

  // ----- Runs of both -----

  /** A route on records, or a route on roles and groups. */
  datatype JointOp = OnRecords(op: Op) | OnRoles(rop: R.RoleOp)

  predicate IsRoleRoute(rop: R.RoleOp) {
    rop.OpSetGroup? || rop.OpRemoveGroup? || rop.OpSetUser? || rop.OpRemoveUser? || rop.OpAddMember? || rop.OpRemoveMember?
  }

  /** What one route makes of both. */
  ghost predicate JointStep(w: World, s: Access, op: JointOp, w': World, s': Access) {
    match op
    case OnRecords(o) =>
      && Defined(w, o) && Step(w, o, w')
      && var rop := Shadow(w, o, w');
         (rop.Some? ==> R.Possible(s, rop.value)) && s' == Shadowed(s, rop, w'.next)
    case OnRoles(r) =>
      && IsRoleRoute(r) && R.Possible(s, r) && s' == R.After(s, r)
      && w' == w.(auths := s'.auths, next := s'.next)
  }

  /** Both in order, and of one mind. */
  ghost predicate Joint(w: World, s: Access) {
    Orderly(w) && Mirrors(w, s) && IndexAgrees(s) && R.Fresh(s)
  }

  /** Before the first dataset, whatever users and groups there are. */
  lemma NothingYetIsJoint(users: map<string, bool>, groups: Groups)
    ensures var s := Access({}, {}, users, groups, map[], map[], map[], EMPTY.next); Joint(EMPTY, s) && Books(s)
  {
    EmptyIsFine();
    InvIsOrderly(EMPTY);
  }

  lemma NextAside(s: Access, next: Id)
    ensures IndexAgrees(s) ==> IndexAgrees(s.(next := next))
    ensures Books(s) ==> Books(s.(next := next))
  {
    if IndexAgrees(s) {
      forall f | f in s.files ensures Indexed(s.(next := next), f) {
        assert Indexed(s, f);
      }
    }
  }

  ghost predicate FilesOfWorking(s: Access) {
    forall f :: f in s.files ==> s.files[f] in s.working
  }

  lemma ShadowedIsFine(s: Access, rop: Option<R.RoleOp>, next: Id)
    requires IndexAgrees(s) && R.Fresh(s)
    requires rop.Some? ==> R.Possible(s, rop.value) && !IsRoleRoute(rop.value)
    ensures IndexAgrees(Shadowed(s, rop, next)) && (Books(s) ==> Books(Shadowed(s, rop, next)))
    ensures FilesOfWorking(Shadowed(s, rop, next))
  {
    var t := if rop.Some? then R.After(s, rop.value) else s;
    if rop.Some? {
      R.IndexFollows(s, rop.value);
      if Books(s) {
        R.BooksKept(s, rop.value);
      }
    }
    hide IndexAgrees, Books, R.After, R.Possible, R.Sound;
    NextAside(t, next);
  }

  lemma MirrorIsFresh(w: World, s: Access)
    requires Orderly(w) && Mirrors(w, s) && FilesOfWorking(s)
    ensures R.Fresh(s)
  {
    assert Issued(w.auths, w.next);
  }

  lemma ShadowIsNoRoute(w: World, op: Op, w': World)
    requires Defined(w, op)
    ensures Shadow(w, op, w').Some? ==> !IsRoleRoute(Shadow(w, op, w').value)
  {
    hide Reached, Closed;
  }

  lemma RecordStepKeepsJoint(w: World, s: Access, op: Op, w': World, s': Access)
    requires Joint(w, s) && JointStep(w, s, OnRecords(op), w', s')
    ensures Joint(w', s') && (Books(s) ==> Books(s'))
  {
    hide Orderly, Mirrors, IndexAgrees, Books, R.Fresh, R.Possible, Shadow, Shadowed, Step, Defined, IsRoleRoute,
         FilesOfWorking;
    StepKeepsOrder(w, op, w');
    ShadowFollows(w, op, w', s);
    ShadowIsNoRoute(w, op, w');
    ShadowedIsFine(s, Shadow(w, op, w'), w'.next);
    MirrorIsFresh(w', s');
  }

  ghost predicate DatasetsBelow(auths: Auths, n: Id) {
    forall a :: a in auths ==> auths[a].dataset < n
  }

  /** What a role route leaves alone. */
  ghost predicate Elsewhere(s: Access, s': Access, n: Id) {
    && s'.working == s.working && s'.frozen == s.frozen && s'.files == s.files && s.next <= s'.next
    && s'.groups == s.groups && s'.users == s.users
    && (DatasetsBelow(s.auths, n) ==> DatasetsBelow(s'.auths, n))
  }

  lemma PutBelow(auths: Auths, a: Id, auth: Authorization, n: Id)
    requires auth.dataset < n
    ensures DatasetsBelow(auths, n) ==> DatasetsBelow(auths[a := auth], n)
  {
  }

  lemma GroupRemovalElsewhere(s: Access, d: Id, g: Id, pick: Option<Id>, n: Id)
    requires Answers(pick, GrantedTo(s.auths, d, g))
    ensures Elsewhere(s, RemoveGroupRole(s, d, g, pick).0, n)
  {
    hide Entries, RemoveEach, RemoveFirst, Emails;
  }

  lemma GroupGrantElsewhere(s: Access, d: Id, g: Id, role: Role, into: Option<Id>, n: Id)
    requires g in s.groups && Answers(into, WithRole(s.auths, d, role)) && d < n
    ensures Elsewhere(s, GrantGroup(s, d, g, role, into).0, n)
  {
    if into.Some? {
      JoiningElsewhere(s, d, g, into.value, n);
      hide GrantJoining;
    } else {
      var s1 := ViewerAdded(s, d, g);
      WithRecordElsewhere(s, ViewerRecord(s.groups, d, g), n);
      WithRecordElsewhere(s1, Authorization(d, role, Emails(Writers(s.groups[g])), [g]), n);
      hide WithRecord;
    }
  }

  lemma WithRecordElsewhere(s: Access, auth: Authorization, n: Id)
    requires auth.dataset < n
    ensures Elsewhere(s, WithRecord(s, auth), n)
  {
    PutBelow(s.auths, s.next, auth, n);
    hide DatasetsBelow, Entries;
  }

  lemma JoiningElsewhere(s: Access, d: Id, g: Id, a: Id, n: Id)
    requires g in s.groups && a in s.auths && s.auths[a].dataset == d && d < n
    ensures Elsewhere(s, GrantJoining(s, d, g, a), n)
  {
    var auths := s.auths[a := Joined(s.groups, s.auths[a], g)];
    PutBelow(s.auths, a, auths[a], n);
    PutBelow(auths, s.next, ViewerRecord(s.groups, d, g), n);
    hide DatasetsBelow, Joined, ViewerRecord, Entries;
  }

  lemma UserRemovalElsewhere(s: Access, d: Id, u: string, pick: Option<Id>, n: Id)
    requires Answers(pick, Naming(s.auths, d, u))
    ensures Elsewhere(s, RemoveUserRole(s, d, u, pick).0, n)
  {
    hide Entries, RemoveFirst;
  }

  lemma UserGrantElsewhere(s: Access, d: Id, u: string, role: Role, into: Option<Id>, n: Id)
    requires u in s.users && Answers(into, WithRole(s.auths, d, role)) && d < n
    ensures Elsewhere(s, GrantUser(s, d, u, role, into).0, n)
  {
    if into.Some? && u !in s.auths[into.value].userIds {
      var auth := WithUser(s.groups, s.auths[into.value], u);
      assert auth.dataset == d;
      PutBelow(s.auths, into.value, auth, n);
      hide DatasetsBelow, Entries, WithUser;
    } else {
      WithRecordElsewhere(s, Authorization(d, role, [u], []), n);
      hide DatasetsBelow, WithRecord;
    }
  }

  lemma SetGroupElsewhere(s: Access, d: Id, g: Id, role: Role, pick: Option<Id>, into: Option<Id>, n: Id)
    requires Answers(pick, GrantedTo(s.auths, d, g))
    requires Answers(into, WithRole(RemoveGroupRole(s, d, g, pick).0.auths, d, role))
    requires Visible(s, d) ==> d < n
    ensures Elsewhere(s, SetGroupRole(s, d, g, role, pick, into).0, n)
  {
    GroupRemovalElsewhere(s, d, g, pick, n);
    hide DatasetsBelow, RemoveGroupRole, GrantGroup, Visible;
    if Visible(s, d) && g in s.groups {
      GroupGrantElsewhere(RemoveGroupRole(s, d, g, pick).0, d, g, role, into, n);
    }
  }

  lemma SetUserElsewhere(s: Access, d: Id, u: string, role: Role, pick: Option<Id>, into: Option<Id>, n: Id)
    requires Answers(pick, Naming(s.auths, d, u))
    requires Answers(into, WithRole(RemoveUserRole(s, d, u, pick).0.auths, d, role))
    requires Visible(s, d) ==> d < n
    ensures Elsewhere(s, SetUserRole(s, d, u, role, pick, into).0, n)
  {
    UserRemovalElsewhere(s, d, u, pick, n);
    hide DatasetsBelow, RemoveUserRole, GrantUser, Visible;
    if Visible(s, d) && u in s.users {
      UserGrantElsewhere(RemoveUserRole(s, d, u, pick).0, d, u, role, into, n);
    }
  }

  /** Members come and go without a record more or less. */
  lemma MembersElsewhere(s: Access, g: Id, u: string, editor: bool, n: Id)
    requires DatasetsBelow(s.auths, n)
    ensures SameDatasets(s, AddMember(s, g, u, editor).0, n) && SameDatasets(s, RemoveMember(s, g, u).0, n)
  {
  }

  ghost predicate SameDatasets(s: Access, s': Access, n: Id) {
    && s'.working == s.working && s'.frozen == s.frozen && s'.files == s.files && s.next <= s'.next
    && DatasetsBelow(s'.auths, n)
  }

  /** Role routes leave datasets, releases and files alone, and make records for datasets there are only. */
  lemma RoleRouteElsewhere(s: Access, rop: R.RoleOp, n: Id)
    requires IsRoleRoute(rop) && R.Possible(s, rop)
    requires DatasetsBelow(s.auths, n) && forall d: Id :: Visible(s, d) ==> d < n
    ensures SameDatasets(s, R.After(s, rop), n)
  {
    hide Visible, DatasetsBelow, SetGroupRole, RemoveGroupRole, SetUserRole, RemoveUserRole, AddMember, RemoveMember;
    match rop
    case OpSetGroup(d, g, role, pick, into) => SetGroupElsewhere(s, d, g, role, pick, into, n);
    case OpRemoveGroup(d, g, pick) => GroupRemovalElsewhere(s, d, g, pick, n);
    case OpSetUser(d, u, role, pick, into) => SetUserElsewhere(s, d, u, role, pick, into, n);
    case OpRemoveUser(d, u, pick) => UserRemovalElsewhere(s, d, u, pick, n);
    case OpAddMember(g, u, editor) => MembersElsewhere(s, g, u, editor, n);
    case OpRemoveMember(g, u) => MembersElsewhere(s, g, u, false, n);
  }

  /** Other authorization records do not put anything else out of order. */
  lemma OtherAuthsInOrder(w: World, auths: map<Id, Authorization>, next: Id)
    requires Orderly(w) && w.next <= next && Issued(auths, next) && DatasetsBelow(auths, next)
    ensures Orderly(w.(auths := auths, next := next))
  {
    OtherAuthsIds(w, auths, next);
  }

  lemma OtherAuthsIds(w: World, auths: map<Id, Authorization>, next: Id)
    requires IdsIssued(w) && w.next <= next && Issued(auths, next) && DatasetsBelow(auths, next)
    ensures IdsIssued(w.(auths := auths, next := next))
  {
  }

  lemma RoleStepKeepsJoint(w: World, s: Access, rop: R.RoleOp, w': World, s': Access)
    requires Joint(w, s) && JointStep(w, s, OnRoles(rop), w', s')
    ensures Joint(w', s') && (Books(s) && R.Sound(s, rop) ==> Books(s'))
  {
    hide Orderly, Mirrors, IndexAgrees, Books, R.Fresh, R.Possible, R.After, R.Sound, IsRoleRoute, FilesOfWorking;
    R.IndexFollows(s, rop);
    RoleRouteStaysInOrder(w, s, rop);
    MirrorIsFresh(w', s');
    if Books(s) && R.Sound(s, rop) {
      R.BooksKept(s, rop);
    }
  }

  lemma VisibleIssued(w: World, s: Access)
    requires Orderly(w) && Mirrors(w, s)
    ensures DatasetsBelow(s.auths, w.next) && forall d: Id :: Visible(s, d) ==> d < w.next
  {
  }

  lemma RoleRouteStaysInOrder(w: World, s: Access, rop: R.RoleOp)
    requires Orderly(w) && Mirrors(w, s) && R.Fresh(s) && R.Possible(s, rop) && IsRoleRoute(rop) && IndexAgrees(s)
    requires R.Fresh(R.After(s, rop))
    ensures var s' := R.After(s, rop);
            var w' := w.(auths := s'.auths, next := s'.next);
            Orderly(w') && Mirrors(w', s') && FilesOfWorking(s')
  {
    VisibleIssued(w, s);
    RoleRouteElsewhere(s, rop, w.next);
    hide Orderly, DatasetsBelow, R.Possible, R.After, IsRoleRoute, IndexAgrees;
    OtherAuthsInOrder(w, R.After(s, rop).auths, R.After(s, rop).next);
  }

  ghost predicate JointRun(ws: seq<World>, ss: seq<Access>, ops: seq<JointOp>) {
    && |ws| == |ss| == |ops| + 1
    && forall i {:trigger ops[i]} :: 0 <= i < |ops| ==> JointStep(ws[i], ss[i], ops[i], ws[i + 1], ss[i + 1])
  }

  /** Over every run of routes of both kinds, conditions met or not, records and roles stay in order, agree on
      datasets, releases, files and authorization records, and the file index names exactly the users the
      records name. */
  lemma {:induction false} JointRunStaysJoint(ws: seq<World>, ss: seq<Access>, ops: seq<JointOp>, i: nat)
    requires JointRun(ws, ss, ops) && Joint(ws[0], ss[0]) && i <= |ops|
    ensures Joint(ws[i], ss[i])
  {
    hide Joint, JointStep;
    if i > 0 {
      JointRunStaysJoint(ws, ss, ops, i - 1);
      JointStepKeepsJoint(ws[i - 1], ss[i - 1], ops[i - 1], ws[i], ss[i]);
    }
  }

  ghost predicate JointlySound(s: Access, op: JointOp) {
    op.OnRoles? ==> R.Sound(s, op.rop)
  }

  lemma JointStepKeepsJoint(w: World, s: Access, op: JointOp, w': World, s': Access)
    requires Joint(w, s) && JointStep(w, s, op, w', s')
    ensures Joint(w', s') && (Books(s) && JointlySound(s, op) ==> Books(s'))
  {
    hide Joint, JointStep, Books;
    match op
    case OnRecords(o) => RecordStepKeepsJoint(w, s, o, w', s');
    case OnRoles(r) => RoleStepKeepsJoint(w, s, r, w', s');
  }

  /** ... and the bookkeeping stands over every one whose role routes meet their conditions, whatever the
      routes on records do. */
  lemma {:induction false} JointRunKeepsBooks(ws: seq<World>, ss: seq<Access>, ops: seq<JointOp>, i: nat)
    requires JointRun(ws, ss, ops) && Joint(ws[0], ss[0]) && Books(ss[0]) && i <= |ops|
    requires forall j {:trigger ops[j]} :: 0 <= j < |ops| ==> JointlySound(ss[j], ops[j])
    ensures Books(ss[i])
  {
    hide Joint, JointStep, Books;
    if i > 0 {
      JointRunKeepsBooks(ws, ss, ops, i - 1);
      JointRunStaysJoint(ws, ss, ops, i - 1);
      JointStepKeepsJoint(ws[i - 1], ss[i - 1], ops[i - 1], ws[i], ss[i]);
    }
  }
}
