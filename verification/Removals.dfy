/** Removing records one after the other amounts to removing them all at once. */
module Removals {
  import opened Types
  import opened Forest
  import opened State
  import opened Invariant
  import opened Steps

  lemma DropNoFiles(w: World)
    ensures DropFiles(w, {}) == w
  {
    assert DropFiles(w, {}).files == w.files;
    assert DropFiles(w, {}).versions == w.versions;
    assert DropFiles(w, {}).metadata == w.metadata;
    assert DropFiles(w, {}).objects == w.objects;
  }

  lemma DropOneFile(w: World, f: Id)
    ensures DropFiles(w, {f}) ==
            w.(files := w.files - {f},
               versions := VersionsBut(w.versions, f),
               metadata := DocsBut(w.metadata, Ref(Files, f)),
               objects := if HasFrozenCopy(w.frozenFiles, f) then w.objects else w.objects - {f})
  {
    DropOneFileRecords(w, f);
    assert DropFiles(w, {f}).objects == if HasFrozenCopy(w.frozenFiles, f) then w.objects else w.objects - {f};
  }

  lemma DropOneFileRecords(w: World, f: Id)
    ensures DropFiles(w, {f}).versions == VersionsBut(w.versions, f)
    ensures DropFiles(w, {f}).metadata == DocsBut(w.metadata, Ref(Files, f))
  {
  }

  lemma DropFilesCompose(w: World, s: set<Id>, t: set<Id>)
    ensures DropFiles(DropFiles(w, s), t) == DropFiles(w, s + t)
  {
    var w1, w2 := DropFiles(DropFiles(w, s), t), DropFiles(w, s + t);
    assert w1.files == w2.files;
    assert w1.versions == w2.versions;
    assert w1.metadata == w2.metadata;
    assert w1.objects == w2.objects;
  }

  lemma DropNoFolders(w: World)
    ensures DropFolders(w, {}) == w
  {
    DropNoFiles(w);
    assert FilesIn(w.files, {}) == {};
    assert w.folders - {} == w.folders;
  }

  lemma DropFoldersCompose(w: World, s: set<Id>, t: set<Id>)
    ensures DropFolders(DropFolders(w, s), t) == DropFolders(w, s + t)
  {
    var mid := DropFolders(w, s);
    DropFilesCompose(w, FilesIn(w.files, s), FilesIn(mid.files, t));
    DropFilesCompose(w, FilesIn(w.files, s), FilesIn(w.files, t));
    assert FilesIn(w.files, s) + FilesIn(mid.files, t) == FilesIn(w.files, s + t);
    assert w.folders - s - t == w.folders - (s + t);
    FoldersCommute(DropFiles(w, FilesIn(w.files, s)), FilesIn(mid.files, t), w.folders - s);
  }

  /** Removing files does not look at the folders. */
  lemma FoldersCommute(w: World, doomed: set<Id>, folders: Folders)
    ensures DropFiles(w.(folders := folders), doomed) == DropFiles(w, doomed).(folders := folders)
  {
  }

  /** Files of the folder first, then what is below it, then the folder itself. */
  lemma FolderGoesLast(w: World, f: Id, below: set<Id>)
    ensures DropFolders(DropFiles(w, FilesIn(w.files, {f})), below).(folders := w.folders - below - {f}) ==
            DropFolders(w, below + {f})
  {
    var mid := DropFiles(w, FilesIn(w.files, {f}));
    DropFilesCompose(w, FilesIn(w.files, {f}), FilesIn(mid.files, below));
    assert FilesIn(w.files, {f}) + FilesIn(mid.files, below) == FilesIn(w.files, below + {f});
    assert w.folders - below - {f} == w.folders - (below + {f});
  }

  lemma DropNoFrozenFiles(w: World)
    ensures DropFrozenFiles(w, {}) == w
  {
    assert DropFrozenFiles(w, {}).frozenFiles == w.frozenFiles;
    assert DropFrozenFiles(w, {}).frozenMetadata == w.frozenMetadata;
    assert DropFrozenFiles(w, {}).objects == w.objects;
  }

  lemma DropOneFrozenFile(w: World, x: Id)
    requires x in w.frozenFiles
    ensures var file, rest := w.frozenFiles[x], w.frozenFiles - {x};
            DropFrozenFiles(w, {x}) ==
            w.(frozenFiles := rest,
               frozenMetadata := if file.storage == Local then DocsOfOthers(w.frozenMetadata, x)
                                 else DocsBut(w.frozenMetadata, Ref(Files, x)),
               objects := if file.storage == Minio && file.origin.Some? && !HasFrozenCopy(rest, file.origin.value) &&
                             file.origin.value !in w.files then w.objects - {file.origin.value} else w.objects)
  {
    OneFilesDocs(w, x);
    OneOrphan(w, x);
    hide Orphaned, BelongsTo, HasFrozenCopy, DocsOfOthers, DocsBut;
  }

  lemma OneFilesDocs(w: World, x: Id)
    requires x in w.frozenFiles
    ensures DropFrozenFiles(w, {x}).frozenMetadata ==
            if w.frozenFiles[x].storage == Local then DocsOfOthers(w.frozenMetadata, x)
            else DocsBut(w.frozenMetadata, Ref(Files, x))
  {
  }

  lemma OneOrphan(w: World, x: Id)
    requires x in w.frozenFiles
    ensures var file, rest := w.frozenFiles[x], w.frozenFiles - {x};
            DropFrozenFiles(w, {x}).objects ==
            if file.storage == Minio && file.origin.Some? && !HasFrozenCopy(rest, file.origin.value) &&
               file.origin.value !in w.files then w.objects - {file.origin.value} else w.objects
  {
    var file, rest := w.frozenFiles[x], w.frozenFiles - {x};
    forall o: Id ensures Orphaned(w, {x}, o) <==>
                     file.storage == Minio && file.origin == Some(o) && !HasFrozenCopy(rest, o) && o !in w.files {
      assert x in {x};
    }
  }

  /** One by one is all at once: this needs that copies of one file agree on the storage, since only
      the last reference takes the bytes along. */
  lemma DropFrozenFilesCompose(w: World, s: set<Id>, t: set<Id>)
    requires Lineage(w.releases, w.files, w.frozenFiles) && s !! t
    ensures DropFrozenFiles(DropFrozenFiles(w, s), t) == DropFrozenFiles(w, s + t)
  {
    var mid := DropFrozenFiles(w, s);
    var w1, w2 := DropFrozenFiles(mid, t), DropFrozenFiles(w, s + t);
    assert mid.frozenFiles - t == w.frozenFiles - (s + t);
    assert w1.frozenMetadata == w2.frozenMetadata;
    forall o | o in w.objects ensures Orphaned(w, s + t, o) <==> Orphaned(w, s, o) || Orphaned(mid, t, o) {
      OrphanedInTwo(w, s, t, o);
    }
    assert w1.objects == w2.objects;
  }

  lemma StillCopied(frozenFiles: map<Id, File>, gone: set<Id>, x: Id, o: Id)
    requires x in frozenFiles && x !in gone && frozenFiles[x].origin == Some(o)
    ensures HasFrozenCopy(frozenFiles - gone, o)
  {
    assert x in frozenFiles - gone && (frozenFiles - gone)[x].origin == Some(o);
  }

  lemma OrphanedInTwo(w: World, s: set<Id>, t: set<Id>, o: Id)
    requires Lineage(w.releases, w.files, w.frozenFiles) && s !! t
    ensures Orphaned(w, s + t, o) <==> Orphaned(w, s, o) || Orphaned(DropFrozenFiles(w, s), t, o)
  {
    var mid := DropFrozenFiles(w, s);
    assert mid.frozenFiles - t == w.frozenFiles - (s + t);
    assert HasFrozenCopy(w.frozenFiles - (s + t), o) ==> HasFrozenCopy(w.frozenFiles - s, o) by {
      if HasFrozenCopy(w.frozenFiles - (s + t), o) {
        var y :| y in w.frozenFiles - (s + t) && (w.frozenFiles - (s + t))[y].origin == Some(o);
        assert y in w.frozenFiles - s && (w.frozenFiles - s)[y].origin == Some(o);
      }
    }
    if Orphaned(w, s + t, o) && !Orphaned(w, s, o) {
      var x :| x in s + t && x in w.frozenFiles && w.frozenFiles[x].storage == Minio && w.frozenFiles[x].origin == Some(o);
      if x in s {
        var y :| y in w.frozenFiles - s && (w.frozenFiles - s)[y].origin == Some(o);
        assert Share(w.frozenFiles, x, y);
        assert y in t by {
          if y !in t {
            StillCopied(w.frozenFiles, s + t, y, o);
            assert false;
          }
        }
        assert y in mid.frozenFiles && mid.frozenFiles[y].storage == Minio;
      }
    }
    if Orphaned(w, s, o) {
      if HasFrozenCopy(w.frozenFiles - (s + t), o) {
        assert false;
      }
    }
    if Orphaned(mid, t, o) {
      var x :| x in t && x in mid.frozenFiles && mid.frozenFiles[x].storage == Minio && mid.frozenFiles[x].origin == Some(o);
      assert x in s + t && w.frozenFiles[x].storage == Minio && w.frozenFiles[x].origin == Some(o);
    }
  }

  /** What a release consists of besides its files. */
  function DropReleaseShell(w: World, gone: set<Id>): World {
    w.(frozenFolders := w.frozenFolders - FoldersOf(w.frozenFolders, gone),
       frozenMetadata := map m | m in w.frozenMetadata &&
                                 !(w.frozenMetadata[m].owner.collection == Datasets &&
                                   w.frozenMetadata[m].owner.id in gone) :: w.frozenMetadata[m],
       auths := map a | a in w.auths && w.auths[a].dataset !in gone :: w.auths[a])
  }

  lemma FilesThenShell(w: World, gone: set<Id>)
    ensures DropReleases(w, gone) == DropReleaseShell(DropFrozenFiles(w, FilesOf(w.frozenFiles, gone)), gone)
  {
    assert DropReleases(w, gone).frozenMetadata ==
           DropReleaseShell(DropFrozenFiles(w, FilesOf(w.frozenFiles, gone)), gone).frozenMetadata;
  }

  lemma DropNoReleases(w: World)
    ensures DropReleases(w, {}) == w
  {
    DropNoFrozenFiles(w);
    FilesThenShell(w, {});
    assert FilesOf(w.frozenFiles, {}) == {};
    assert DropReleaseShell(w, {}).frozenFolders == w.frozenFolders;
    assert DropReleaseShell(w, {}).frozenMetadata == w.frozenMetadata;
    assert DropReleaseShell(w, {}).auths == w.auths;
  }

  lemma DropReleasesCompose(w: World, s: set<Id>, t: set<Id>)
    requires Lineage(w.releases, w.files, w.frozenFiles) && s !! t
    ensures DropReleases(DropReleases(w, s), t) == DropReleases(w, s + t)
  {
    var mid := DropReleases(w, s);
    FilesThenShell(w, s);
    FilesThenShell(mid, t);
    FilesThenShell(w, s + t);
    var fs, ft := FilesOf(w.frozenFiles, s), FilesOf(w.frozenFiles, t);
    assert FilesOf(mid.frozenFiles, t) == ft && FilesOf(w.frozenFiles, s + t) == fs + ft;
    DropFrozenFilesCompose(w, fs, ft);
    ShellCommutes(DropFrozenFiles(w, fs), s, ft);
    ShellCompose(DropFrozenFiles(w, fs + ft), s, t);
  }

  /** Removing the shell and removing frozen files do not disturb each other. */
  lemma ShellCommutes(w: World, gone: set<Id>, doomed: set<Id>)
    ensures DropFrozenFiles(DropReleaseShell(w, gone), doomed) == DropReleaseShell(DropFrozenFiles(w, doomed), gone)
  {
    assert DropFrozenFiles(DropReleaseShell(w, gone), doomed).frozenMetadata ==
           DropReleaseShell(DropFrozenFiles(w, doomed), gone).frozenMetadata;
    assert DropFrozenFiles(DropReleaseShell(w, gone), doomed).objects ==
           DropReleaseShell(DropFrozenFiles(w, doomed), gone).objects;
  }

  lemma ShellCompose(w: World, s: set<Id>, t: set<Id>)
    ensures DropReleaseShell(DropReleaseShell(w, s), t) == DropReleaseShell(w, s + t)
  {
    var mid := DropReleaseShell(w, s);
    assert mid.frozenFolders - FoldersOf(mid.frozenFolders, t) == w.frozenFolders - FoldersOf(w.frozenFolders, s + t);
    assert DropReleaseShell(mid, t).frozenMetadata == DropReleaseShell(w, s + t).frozenMetadata;
    assert DropReleaseShell(mid, t).auths == DropReleaseShell(w, s + t).auths;
  }

  /** Release records are not looked at. */
  lemma ReleasesCommute(w: World, gone: set<Id>, releases: map<Id, Release>)
    ensures DropReleases(w.(releases := releases), gone) == DropReleases(w, gone).(releases := releases)
  {
  }

  lemma LineageAfterDrop(w: World, gone: set<Id>)
    requires Lineage(w.releases, w.files, w.frozenFiles)
    ensures var w' := DropReleases(w, gone); Lineage(w.releases - gone, w'.files, w'.frozenFiles)
  {
    var w' := DropReleases(w, gone);
    LineageKept(w, w.releases - gone, w'.files, w'.frozenFiles);
  }

  /** The metadata of a release and its folders: what the code removes before the files. */
  function DropDocsAndFolders(w: World, fd: Id): World {
    w.(frozenMetadata := map m | m in w.frozenMetadata && w.frozenMetadata[m].owner != Ref(Datasets, fd) ::
                           w.frozenMetadata[m],
       frozenFolders := w.frozenFolders - FoldersOf(w.frozenFolders, {fd}))
  }

  lemma OrphanedAnyway(w: World, fd: Id, doomed: set<Id>)
    ensures forall o :: Orphaned(DropDocsAndFolders(w, fd), doomed, o) <==> Orphaned(w, doomed, o)
    ensures forall owner :: BelongsTo(DropDocsAndFolders(w, fd), doomed, owner) <==> BelongsTo(w, doomed, owner)
  {
  }

  /** The steps of one release deletion in the order of the code. */
  lemma DropOneRelease(w: World, fd: Id)
    ensures var last := DropFrozenFiles(DropDocsAndFolders(w, fd), FilesOf(w.frozenFiles, {fd}));
            DropReleases(w, {fd}) == last.(auths := map a | a in w.auths && w.auths[a].dataset != fd :: w.auths[a])
  {
    OneReleaseObjects(w, fd);
    OneReleaseDocs(w, fd);
    assert DropReleases(w, {fd}).auths == map a | a in w.auths && w.auths[a].dataset != fd :: w.auths[a];
  }

  lemma OneReleaseObjects(w: World, fd: Id)
    ensures DropReleases(w, {fd}).objects ==
            DropFrozenFiles(DropDocsAndFolders(w, fd), FilesOf(w.frozenFiles, {fd})).objects
  {
    OrphanedAnyway(w, fd, FilesOf(w.frozenFiles, {fd}));
  }

  lemma OneReleaseDocs(w: World, fd: Id)
    ensures DropReleases(w, {fd}).frozenMetadata ==
            DropFrozenFiles(DropDocsAndFolders(w, fd), FilesOf(w.frozenFiles, {fd})).frozenMetadata
  {
    OrphanedAnyway(w, fd, FilesOf(w.frozenFiles, {fd}));
  }
}
