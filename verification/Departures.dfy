/** States the system reaches in which a route does what is not wanted of it. */
module Departures {
  import opened Types
  import opened Nested
  import opened Forest
  import opened FolderFreeze
  import opened State
  import opened Invariant
  import opened Steps
  import opened Runs
  import opened Downloads
  import opened Histories

  /** A careful run from the empty database ends here. */
  ghost predicate Reachable(w: World) {
    exists ws, ops :: CarefulRun(ws, ops) && ws[0] == EMPTY && ws[|ops|] == w
  }

  lemma EmptyIsReachable()
    ensures Reachable(EMPTY)
  {
    assert CarefulRun([EMPTY], []);
  }

  lemma Reach(w: World, op: Op, w': World)
    requires Reachable(w) && Defined(w, op) && Careful(w, op) && Step(w, op, w')
    ensures Reachable(w') && Inv(w')
  {
    hide Inv, Defined, Careful, Step;
    var ws, ops :| CarefulRun(ws, ops) && ws[0] == EMPTY && ws[|ops|] == w;
    var ws', ops' := ws + [w'], ops + [op];
    forall i {:trigger ops'[i]} | 0 <= i < |ops'|
      ensures Defined(ws'[i], ops'[i]) && Careful(ws'[i], ops'[i]) && Step(ws'[i], ops'[i], ws'[i + 1])
    {
      if i < |ops| {
        assert ops'[i] == ops[i] && ws'[i] == ws[i] && ws'[i + 1] == ws[i + 1];
      } else {
        assert ops'[i] == op && ws'[i] == w && ws'[i + 1] == w';
      }
    }
    assert CarefulRun(ws', ops');
    ReachableStatesAreFine(ws', ops', |ops'|);
  }

  // ----- Small databases -----

  function JustADataset(): World {
    EMPTY.(datasets := map[0 := Dataset("d")], auths := map[1 := Authorization(0, Owner, [], [])], next := 2)
  }

  function OneFolder(): World {
    JustADataset().(folders := map[2 := Folder("a", 0, None, None)], next := 3)
  }

  function TwoFolders(): World {
    OneFolder().(folders := OneFolder().folders[3 := Folder("b", 0, Some(2), None)], next := 4)
  }

  /** With one more dataset, number 4. */
  function TwoDatasets(): World {
    TwoFolders().(datasets := TwoFolders().datasets[4 := Dataset("e")],
                  auths := TwoFolders().auths[5 := Authorization(4, Owner, [], [])], next := 6)
  }

  function LocalFile(): World {
    JustADataset().(files := map[2 := File("f", "text/plain", 0, None, Local, "N/A", 0, None)], next := 3)
  }

  function StoredFile(): World {
    OneFolder().(files := map[3 := File("f", "text/plain", 0, Some(2), Minio, "v", 1, None)],
                 versions := map[4 := FileVersion(3, "v", 1)], objects := {3}, next := 5)
  }

  /** The stored file frozen: release 5 with folder 6 and file 7. */
  function ReleasedFile(): World {
    StoredFile().(releases := map[5 := Release("d", 0, 1, false)],
                  auths := StoredFile().auths[8 := Authorization(5, Owner, [], [])],
                  frozenFolders := map[6 := Folder("a", 5, None, Some(2))],
                  frozenFiles := map[7 := File("f", "text/plain", 5, Some(6), Minio, "v", 1, Some(3))],
                  next := 9)
  }

  lemma DatasetReached()
    ensures Reachable(JustADataset()) && Inv(JustADataset())
  {
    hide Reachable, Inv;
    EmptyIsReachable();
    assert JustADataset() == CreateDataset(EMPTY, "d").0;
    Reach(EMPTY, OpCreateDataset("d"), JustADataset());
  }

  lemma FolderReached()
    ensures Reachable(OneFolder()) && Inv(OneFolder())
  {
    hide Reachable, Inv;
    DatasetReached();
    assert OneFolder() == AddFolder(JustADataset(), 0, "a", None).0;
    Reach(JustADataset(), OpAddFolder(0, "a", None), OneFolder());
  }

  lemma FoldersReached()
    ensures Reachable(TwoFolders()) && Inv(TwoFolders())
  {
    hide Reachable, Inv;
    FolderReached();
    assert TwoFolders() == AddFolder(OneFolder(), 0, "b", Some(2)).0;
    Reach(OneFolder(), OpAddFolder(0, "b", Some(2)), TwoFolders());
  }

  lemma DatasetsReached()
    ensures Reachable(TwoDatasets()) && Inv(TwoDatasets())
  {
    hide Reachable, Inv;
    FoldersReached();
    assert TwoDatasets() == CreateDataset(TwoFolders(), "e").0;
    Reach(TwoFolders(), OpCreateDataset("e"), TwoDatasets());
  }

  lemma LocalReached()
    ensures Reachable(LocalFile()) && Inv(LocalFile())
  {
    hide Reachable, Inv;
    DatasetReached();
    assert LocalFile() == UploadLocal(JustADataset(), 0, "f", "text/plain", None, true).0;
    Reach(JustADataset(), OpUploadLocal(0, "f", "text/plain", None, true), LocalFile());
  }

  lemma StoredReached()
    ensures Reachable(StoredFile()) && Inv(StoredFile())
  {
    hide Reachable, Inv;
    FolderReached();
    assert StoredFile() == Upload(OneFolder(), 0, "f", "text/plain", Some(2), "v").0;
    Reach(OneFolder(), OpUpload(0, "f", "text/plain", Some(2), "v"), StoredFile());
  }

  lemma FolderIsFrozen()
    ensures FoldersCopied(StoredFile(), 0, 5, ReleasedFile().frozenFolders)
  {
    var fs, frozen := StoredFile().folders, ReleasedFile().frozenFolders;
    assert Ranked(fs, map[2 := 0]);
    OwnFolderIsAbove(fs, 0, 2);
    forall f | AboveDataset(fs, 0, f) ensures f == 2 {
      AboveInOneDataset(fs, 0, f);
    }
    assert CopyOf(frozen, 5, 6, 2);
  }

  lemma FileIsFrozen()
    ensures FilesCopied(StoredFile(), 0, 5, ReleasedFile().frozenFolders, ReleasedFile().frozenFiles, {3})
  {
    hide AboveDataset;
    var w, w' := StoredFile(), ReleasedFile();
    assert Ranked(w.folders, map[2 := 0]);
    OwnFolderIsAbove(w.folders, 0, 2);
    assert CopyOf(w'.frozenFolders, 5, 6, 2);
    assert IsFileCopy(w, 0, 5, w'.frozenFolders, w'.frozenFiles[7], 3);
    assert FileCopyOf(w'.frozenFiles, 5, 7, 3);
  }

  lemma NoDocuments(from: Ref, to: Ref)
    ensures ResourceCopied(StoredFile(), ReleasedFile(), from, to)
  {
  }

  lemma FileSnapshot()
    ensures Snapshot(StoredFile(), 0, 5, ReleasedFile())
  {
    FolderIsFrozen();
    FileIsFrozen();
    assert FilesOf(StoredFile().files, {0}) == {3};
    NoDocuments(Ref(Datasets, 0), Ref(Datasets, 5));
    NoDocuments(Ref(Files, 3), Ref(Files, 7));
    hide FoldersCopied, FilesCopied, ResourceCopied;
  }

  lemma OnlyTheRelease()
    ensures OnlyAdds(StoredFile(), 5, ReleasedFile())
  {
  }

  lemma FileReleased()
    ensures Froze(StoredFile(), 0, 1, ReleasedFile())
  {
    FileSnapshot();
    OnlyTheRelease();
    hide Snapshot, OnlyAdds;
  }

  lemma FreezeIsAStep(w: World, d: Id, n: nat, w': World)
    requires Froze(w, d, n, w') && d in w.datasets && Acyclic(w.folders) && Closed(w.folders)
    ensures Defined(w, OpFreeze(d)) && Careful(w, OpFreeze(d)) && Step(w, OpFreeze(d), w')
  {
    ReachedInForest(w.folders, d);
    hide Froze, Reached, Acyclic, Closed;
    assert FreezeEnded(w, d, n, w');
  }

  lemma StoredTree()
    ensures Acyclic(StoredFile().folders) && Closed(StoredFile().folders) && 0 in StoredFile().datasets
  {
    assert Ranked(StoredFile().folders, map[2 := 0]);
  }

  lemma ReleaseReached()
    ensures Reachable(ReleasedFile()) && Inv(ReleasedFile())
  {
    hide Reachable, Inv, Froze, Defined, Careful, Step, Acyclic, Closed, StoredFile, ReleasedFile;
    StoredReached();
    FileReleased();
    StoredTree();
    FreezeIsAStep(StoredFile(), 0, 1, ReleasedFile());
    Reach(StoredFile(), OpFreeze(0), ReleasedFile());
  }

  // ----- What goes wrong -----

  lemma TwoCycle(fs: Folders, x: Id, y: Id)
    requires HasParent(fs, x) && ParentOf(fs, x) == y && HasParent(fs, y) && ParentOf(fs, y) == x
    ensures !Acyclic(fs)
  {
    forall rank ensures !Ranked(fs, rank) {
      if Ranked(fs, rank) {
        assert false;
      }
    }
  }

  /** A folder moved below its own child: the forest has a cycle. */
  lemma MoveMakesACycle()
    ensures Reachable(TwoFolders())
    ensures !Acyclic(PatchFolder(TwoFolders(), 0, 2, None, Some(3)).0.folders)
  {
    hide Reachable, Inv;
    FoldersReached();
    TwoCycle(PatchFolder(TwoFolders(), 0, 2, None, Some(3)).0.folders, 2, 3);
  }

  /** A folder of dataset 4 below one of dataset 0. */
  lemma ParentInAnotherDataset()
    ensures Reachable(TwoDatasets())
    ensures var (w', r) := AddFolder(TwoDatasets(), 4, "c", Some(2));
            r == Ok(6) && w'.folders[6].dataset == 4 && w'.folders[6].parent == Some(2) && w'.folders[2].dataset == 0
  {
    hide Reachable, Inv;
    DatasetsReached();
  }

  /** ... and a file of dataset 4 in it. */
  lemma UploadIntoAnotherDataset()
    ensures Reachable(TwoDatasets())
    ensures var (w', r) := Upload(TwoDatasets(), 4, "f", "text/plain", Some(2), "v");
            r == Ok(6) && w'.files[6].dataset == 4 && w'.files[6].folder == Some(2) && w'.folders[2].dataset == 0
    ensures var (w', r) := UploadLocal(TwoDatasets(), 4, "f", "text/plain", Some(2), true);
            r == Ok(6) && w'.files[6].dataset == 4 && w'.files[6].folder == Some(2) && w'.folders[2].dataset == 0
  {
    hide Reachable, Inv;
    DatasetsReached();
  }

  function FileElsewhere(): World {
    Upload(TwoDatasets(), 4, "f", "text/plain", Some(2), "v").0
  }

  lemma FileElsewhereIsOrderly()
    ensures Orderly(FileElsewhere()) && Acyclic(FileElsewhere().folders) && Closed(FileElsewhere().folders)
    ensures OneDataset(FileElsewhere().folders)
  {
    hide Reachable, Orderly, ReleaseTree, BytesExact, History, Numbered, IdsIssued;
    DatasetsReached();
    InvIsOrderly(TwoDatasets());
    StoreFileKeepsOrder(TwoDatasets(), File("f", "text/plain", 4, Some(2), Minio, "v", 1, None));
    assert FileElsewhere().folders == TwoDatasets().folders;
  }

  /** Dataset 4 frozen after that: the frozen file still refers to the working folder. */
  lemma FrozenFileKeepsItsFolder(n: nat, w': World)
    requires Froze(FileElsewhere(), 4, n, w')
    ensures Orderly(FileElsewhere()) && Acyclic(FileElsewhere().folders) && Closed(FileElsewhere().folders)
    ensures 2 !in w'.frozenFolders
    ensures exists x :: FileCopyOf(w'.frozenFiles, FileElsewhere().next, x, 6) && w'.frozenFiles[x].folder == Some(2)
  {
    FileElsewhereIsOrderly();
    hide Orderly, ResourceCopied, FoldersCopied;
    var w := FileElsewhere();
    if AboveDataset(w.folders, 4, 2) {
      AboveInOneDataset(w.folders, 4, 2);
    }
    assert 6 in FilesOf(w.files, {4});
    assert exists x :: FileCopyOf(w'.frozenFiles, w.next, x, 6);
  }

  /** Folder 2 deleted through the route of dataset 4: its child is left without a parent. */
  lemma DeletionLeavesAnOrphan()
    ensures Reachable(TwoDatasets()) && Acyclic(TwoDatasets().folders)
    ensures var w' := DeleteFolder(TwoDatasets(), 4, 2).0;
            3 in w'.folders && w'.folders[3].parent == Some(2) && 2 !in w'.folders
  {
    hide Reachable, IdsIssued, ReleaseTree, BytesExact, Lineage, History, Numbered;
    DatasetsReached();
    ReachedInOneDataset(TwoDatasets().folders, 4, 2);
  }

  lemma TwoTree()
    ensures Acyclic(TwoDatasets().folders) && OneDataset(TwoDatasets().folders)
  {
    assert Ranked(TwoDatasets().folders, map[2 := 0, 3 := 1]);
  }

  ghost function Orphaned(): World {
    DeleteFolder(TwoDatasets(), 4, 2).0
  }

  lemma OrphanLeft()
    ensures Orphaned().folders == map[3 := Folder("b", 0, Some(2), None)] && Orphaned().next == 6
    ensures Orphaned().datasets == TwoDatasets().datasets && Orphaned().auths == TwoDatasets().auths
  {
    TwoTree();
    hide DropFiles, Acyclic, OneDataset;
    ReachedInOneDataset(TwoDatasets().folders, 4, 2);
    assert Orphaned().folders == TwoDatasets().folders - {2};
    FilesStayPut(TwoDatasets(), FilesIn(TwoDatasets().files, {2}));
  }

  lemma FilesStayPut(w: World, doomed: set<Id>)
    ensures var w' := DropFiles(w, doomed); w'.datasets == w.datasets && w'.auths == w.auths && w'.next == w.next
  {
  }

  /** Dataset 0 frozen after that: an exception, after which release and folders are there, and no
      authorization. */
  lemma FreezeBreaksOff(n: nat, w': World)
    requires FreezeEnded(Orphaned(), 0, n, w')
    ensures Defined(Orphaned(), OpFreeze(0)) && Step(Orphaned(), OpFreeze(0), w') && FreezeBroke(Orphaned(), 0, n, w')
    ensures 6 in w'.releases && forall a :: a in w'.auths ==> w'.auths[a].dataset != 6
  {
    OrphanLeft();
    OrphanIsReached();
    hide OnlyAdds, BrokenOff, ResourceCopied, Froze, Reached, Acyclic, Closed, DeleteFolder;
    assert FreezeBroke(Orphaned(), 0, n, w');
  }

  lemma OrphanIsReached()
    ensures Acyclic(Reached(Orphaned().folders, 0)) && !Closed(Reached(Orphaned().folders, 0))
  {
    OrphanLeft();
    var fs := Orphaned().folders;
    hide DeleteFolder;
    assert Ranked(fs, map[3 := 0]);
    ReachedInForest(fs, 0);
    OwnFolderIsAbove(fs, 0, 3);
    assert Reached(fs, 0)[3].parent.value == 2;
  }

  /** The file router deletes a working file under a release: the release's bytes are lost. */
  lemma DeletionTakesReleasedBytes()
    ensures Reachable(ReleasedFile())
    ensures var w' := DeleteFile(ReleasedFile(), 3).0;
            && 7 in w'.frozenFiles && w'.frozenFiles[7].storage == Minio && w'.frozenFiles[7].origin == Some(3)
            && 3 !in w'.objects
  {
    hide Reachable, Inv;
    ReleaseReached();
  }

  /** A new version of a local file: bytes that no record accounts for. */
  lemma UpdateLeaksBytes()
    ensures Reachable(LocalFile())
    ensures var w' := UpdateFile(LocalFile(), 2, "f", "text/plain", "v").0;
            2 in w'.objects && 2 !in LiveKeys(w'.files, w'.frozenFiles)
  {
    hide Reachable, Inv;
    LocalReached();
  }

  lemma ReleasedFolderGone()
    ensures Acyclic(ReleasedFile().folders) && FilesIn(ReleasedFile().files, {2}) == {3}
    ensures DeleteFolder(ReleasedFile(), 0, 2).0 == DropFolders(ReleasedFile(), {2})
  {
    OnlyItself(ReleasedFile().folders);
    hide DropFolders, ReachedFrom, Acyclic;
  }

  lemma OnlyItself(fs: Folders)
    requires fs == map[2 := Folder("a", 0, None, None)]
    ensures Acyclic(fs) && ReachedFrom(fs, 0, 2) == {2}
  {
    assert Ranked(fs, map[2 := 0]);
    ReachedInOneDataset(fs, 0, 2);
    assert Under(fs, 2, 2);
  }

  lemma ReleaseInOrder()
    ensures Reachable(ReleasedFile()) && Orderly(ReleasedFile())
    ensures BytesExact(ReleasedFile().files, ReleasedFile().frozenFiles, ReleasedFile().objects)
  {
    hide Reachable, Orderly, BytesExact, ReleasedFile, IdsIssued, ReleaseTree, WorkingTree, NoStrays, Owned, Lineage,
         History, Numbered;
    ReleaseReached();
    InvIsOrderly(ReleasedFile());
  }

  /** The folder of a released file deleted: the release and its bytes stay, the version it pinned is not
      found any more. */
  lemma PinnedVersionIsLost()
    ensures Reachable(ReleasedFile()) && Acyclic(ReleasedFile().folders)
    ensures var w' := DeleteFolder(ReleasedFile(), 0, 2).0;
            && 7 in w'.frozenFiles && w'.frozenFiles[7].versionNum == 1 && 3 in w'.objects
            && forall r :: Answer(w', 7, Some(1), r) ==> r == Err(404)
  {
    hide Reachable, Orderly, BytesExact;
    ReleaseInOrder();
    ReleasedFolderGone();
    RemovalLosesPinnedVersion(ReleasedFile(), 7, {3});
    SameLookupsSameAnswers(DropFiles(ReleasedFile(), {3}), DropFolders(ReleasedFile(), {2}));
  }

  lemma SameLookupsSameAnswers(w: World, w': World)
    requires w'.files == w.files && w'.frozenFiles == w.frozenFiles && w'.versions == w.versions
    ensures forall f, version, r :: Answer(w', f, version, r) <==> Answer(w, f, version, r)
  {
    assert forall f, num, v :: f in w.files || f in w.frozenFiles ==> (LooksUp(w', f, num, v) <==> LooksUp(w, f, num, v));
  }

  // ----- A definition used twice for one version of a file -----

  function Entry(version: int): MetadataIn {
    MetadataIn(Some("def"), Agent("u", None), Some(version), Obj(map[]), true, true)
  }

  function Written(version: int): Doc {
    Doc(Ref(Files, 3), Some("def"), Agent("u", None), Some(version), Obj(map[]), None)
  }

  /** The stored file with a second version and an entry for the first: entry 6. */
  function TwoVersions(): World {
    StoreVersion(StoredFile(), 3, "w")
  }

  function OneEntry(): World {
    InsertMetadata(TwoVersions(), Written(1))
  }

  /** ... and entry 7 for the second. */
  function TwoEntries(): World {
    InsertMetadata(OneEntry(), Written(2))
  }

  lemma VersionsReached()
    ensures Reachable(TwoVersions())
  {
    StoredReached();
    hide Reachable, Inv;
    assert UpdateFile(StoredFile(), 3, "f", "text/plain", "w").0 == TwoVersions();
    Reach(StoredFile(), OpUpdateFile(3, "f", "text/plain", "w"), TwoVersions());
  }

  lemma VersionsAre()
    ensures TwoVersions().next == 6 && TwoVersions().metadata == map[] && 3 in TwoVersions().files
    ensures HasRecord(TwoVersions().versions, 3, 1) && HasRecord(TwoVersions().versions, 3, 2)
  {
    assert Records(TwoVersions().versions, 4, 3, 1) && Records(TwoVersions().versions, 5, 3, 2);
  }

  lemma FirstEntryReached()
    ensures Reachable(OneEntry()) && OneEntry().next == 7 && OneEntry().metadata == map[6 := Written(1)]
    ensures HasRecord(OneEntry().versions, 3, 2) && 3 in OneEntry().files
  {
    hide Reachable, Inv, TwoVersions, HasRecord;
    VersionsReached();
    VersionsAre();
    assert MetadataFor(TwoVersions(), 3, Entry(1)) == {};
    Reach(TwoVersions(), OpAddFileMetadata(3, Entry(1), None), OneEntry());
  }

  lemma EntriesReached()
    ensures Reachable(TwoEntries())
    ensures TwoEntries().next == 8 && TwoEntries().metadata == map[6 := Written(1), 7 := Written(2)]
    ensures HasRecord(TwoEntries().versions, 3, 2) && 3 in TwoEntries().files
  {
    hide Reachable, Inv, OneEntry, HasRecord;
    FirstEntryReached();
    assert MetadataFor(OneEntry(), 3, Entry(2)) == {6};
    Reach(OneEntry(), OpAddFileMetadata(3, Entry(2), Some(6)), TwoEntries());
  }

  /** The query for an older entry may find the one of the first version; then the second version gets the
      same definition again. */
  lemma SameVersionDescribedTwice()
    ensures Reachable(TwoEntries()) && Answers(Some(6), MetadataFor(TwoEntries(), 3, Entry(2)))
    ensures var (w', r) := AddFileMetadata(TwoEntries(), 3, Entry(2), Some(6));
            r == Ok(8) && w'.metadata[7] == w'.metadata[8] == Written(2)
  {
    EntriesReached();
    hide Reachable, TwoEntries, HasRecord;
    assert 6 in MetadataFor(TwoEntries(), 3, Entry(2));
  }

  /** The stored file with an entry for its only version: entry 5. */
  function DescribedOnce(): World {
    InsertMetadata(StoredFile(), Written(1))
  }

  lemma DescriptionReached()
    ensures Reachable(DescribedOnce())
  {
    hide Reachable, Inv;
    StoredReached();
    assert MetadataFor(StoredFile(), 3, Entry(1)) == {};
    assert Records(StoredFile().versions, 4, 3, 1);
    Reach(StoredFile(), OpAddFileMetadata(3, Entry(1), None), DescribedOnce());
  }

  /** A version that is not positive is compared as it is sent and stored as the current one: the only older
      entry is found, and repeated. */
  lemma NoVersionDescribesTwice(version: int)
    requires version <= 0
    ensures Reachable(DescribedOnce()) && DescribedOnce().metadata == map[5 := Written(1)]
    ensures forall pick :: Answers(pick, MetadataFor(DescribedOnce(), 3, Entry(version))) <==> pick == Some(5)
    ensures var (w', r) := AddFileMetadata(DescribedOnce(), 3, Entry(version), Some(5));
            r == Ok(6) && w'.metadata[5] == w'.metadata[6] == Written(1)
  {
    DescriptionReached();
    hide Reachable;
    assert MetadataFor(DescribedOnce(), 3, Entry(version)) == {5};
  }
}
