/** Freezing and deleting a whole dataset against the invariant. */
module ReleaseSteps {
  import opened Types
  import opened Forest
  import opened FolderFreeze
  import opened State
  import opened Invariant
  import opened Steps

  // ----- Freezing -----

  /** A new frozen folder is in the release, and so is its parent, made before it. */
  lemma FrozenFolderOrOld(w: World, d: Id, n: nat, w': World, k: Id)
    requires Inv(w) && Froze(w, d, n, w') && k in w'.frozenFolders
    ensures k in w.frozenFolders ==> w'.frozenFolders[k] == w.frozenFolders[k]
    ensures k !in w.frozenFolders ==>
              var folder := w'.frozenFolders[k];
              && folder.dataset == w.next
              && (folder.parent.Some? ==>
                    folder.parent.value in w'.frozenFolders && folder.parent.value < k &&
                    w'.frozenFolders[folder.parent.value].dataset == w.next)
  {
    if k !in w.frozenFolders {
      assert IsCopy(w.folders, w.next, w'.frozenFolders, k);
    }
  }

  lemma FrozenFilePlace(w: World, d: Id, n: nat, w': World, x: Id)
    requires Inv(w) && Froze(w, d, n, w') && x in w'.frozenFiles && x !in w.frozenFiles
    ensures var file := w'.frozenFiles[x];
            && file.dataset == w.next
            && (file.folder.Some? ==> file.folder.value in w'.frozenFolders &&
                                      w'.frozenFolders[file.folder.value].dataset == w.next)
  {
    var o := w'.frozenFiles[x].origin.value;
    assert IsFileCopy(w, d, w.next, w'.frozenFolders, w'.frozenFiles[x], o);
    if w.files[o].folder.Some? {
      OwnFolderIsAbove(w.folders, d, w.files[o].folder.value);
    }
  }

  /** A release tree that keeps its records and gets well-placed new ones. */
  lemma TreeGrows(w: World, w': World)
    requires ReleaseTree(w.releases, w.frozenFolders, w.frozenFiles, w.frozenMetadata)
    requires forall fd :: fd in w.releases ==> fd in w'.releases
    requires Grows(w.frozenFolders, w'.frozenFolders, 0, w'.next) && Grows(w.frozenFiles, w'.frozenFiles, 0, w'.next)
    requires Grows(w.frozenMetadata, w'.frozenMetadata, 0, w'.next)
    requires forall k :: k in w'.frozenFolders && k !in w.frozenFolders ==> w'.frozenFolders[k].dataset in w'.releases
    requires forall k :: k in w'.frozenFolders && k !in w.frozenFolders && w'.frozenFolders[k].parent.Some? ==>
               w'.frozenFolders[k].parent.value in w'.frozenFolders && w'.frozenFolders[k].parent.value < k &&
               w'.frozenFolders[w'.frozenFolders[k].parent.value].dataset == w'.frozenFolders[k].dataset
    requires forall x :: x in w'.frozenFiles && x !in w.frozenFiles ==> w'.frozenFiles[x].dataset in w'.releases
    requires forall x :: x in w'.frozenFiles && x !in w.frozenFiles && w'.frozenFiles[x].folder.Some? ==>
               w'.frozenFiles[x].folder.value in w'.frozenFolders &&
               w'.frozenFolders[w'.frozenFiles[x].folder.value].dataset == w'.frozenFiles[x].dataset
    requires forall m :: m in w'.frozenMetadata && m !in w.frozenMetadata ==>
               InRelease(w', w.next, w'.frozenMetadata[m].owner) && w.next in w'.releases
    ensures ReleaseTree(w'.releases, w'.frozenFolders, w'.frozenFiles, w'.frozenMetadata)
  {
  }

  lemma FrozeTree(w: World, d: Id, n: nat, w': World)
    requires Inv(w) && Froze(w, d, n, w')
    ensures ReleaseTree(w'.releases, w'.frozenFolders, w'.frozenFiles, w'.frozenMetadata)
  {
    hide IdsIssued, WorkingTree, History, Numbered, BytesExact, Lineage;
    FrozenFoldersPlaces(w, d, n, w');
    FrozenFilesPlaces(w, d, n, w');
    FrozenMetadataPlaces(w, w');
    TreeGrows(w, w');
  }

  lemma FrozenMetadataPlaces(w: World, w': World)
    requires OnlyAdds(w, w.next, w')
    ensures forall m :: m in w'.frozenMetadata && m !in w.frozenMetadata ==> InRelease(w', w.next, w'.frozenMetadata[m].owner)
    ensures Grows(w.frozenFolders, w'.frozenFolders, 0, w'.next) && Grows(w.frozenFiles, w'.frozenFiles, 0, w'.next)
    ensures Grows(w.frozenMetadata, w'.frozenMetadata, 0, w'.next)
  {
  }

  lemma FrozenFoldersPlaces(w: World, d: Id, n: nat, w': World)
    requires Inv(w) && Froze(w, d, n, w')
    ensures forall k :: k in w'.frozenFolders && k !in w.frozenFolders ==> w'.frozenFolders[k].dataset in w'.releases
    ensures forall k :: k in w'.frozenFolders && k !in w.frozenFolders && w'.frozenFolders[k].parent.Some? ==>
              w'.frozenFolders[k].parent.value in w'.frozenFolders && w'.frozenFolders[k].parent.value < k &&
              w'.frozenFolders[w'.frozenFolders[k].parent.value].dataset == w'.frozenFolders[k].dataset
  {
    forall k | k in w'.frozenFolders && k !in w.frozenFolders
      ensures w'.frozenFolders[k].dataset == w.next
      ensures w'.frozenFolders[k].parent.Some? ==>
                w'.frozenFolders[k].parent.value in w'.frozenFolders && w'.frozenFolders[k].parent.value < k &&
                w'.frozenFolders[w'.frozenFolders[k].parent.value].dataset == w.next
    {
      FrozenFolderOrOld(w, d, n, w', k);
    }
  }

  lemma FrozenFilesPlaces(w: World, d: Id, n: nat, w': World)
    requires Inv(w) && Froze(w, d, n, w')
    ensures forall x :: x in w'.frozenFiles && x !in w.frozenFiles ==> w'.frozenFiles[x].dataset in w'.releases
    ensures forall x :: x in w'.frozenFiles && x !in w.frozenFiles && w'.frozenFiles[x].folder.Some? ==>
              w'.frozenFiles[x].folder.value in w'.frozenFolders &&
              w'.frozenFolders[w'.frozenFiles[x].folder.value].dataset == w'.frozenFiles[x].dataset
  {
    forall x | x in w'.frozenFiles && x !in w.frozenFiles
      ensures w'.frozenFiles[x].dataset == w.next
      ensures w'.frozenFiles[x].folder.Some? ==>
                w'.frozenFiles[x].folder.value in w'.frozenFolders &&
                w'.frozenFolders[w'.frozenFiles[x].folder.value].dataset == w.next
    {
      FrozenFilePlace(w, d, n, w', x);
    }
  }

  /** A new frozen file is a copy of a working file of the frozen dataset. */
  lemma FrozenFileOrOld(w: World, d: Id, n: nat, w': World, x: Id)
    requires Orderly(w) && Froze(w, d, n, w') && x in w'.frozenFiles
    ensures x in w.frozenFiles ==> w'.frozenFiles[x] == w.frozenFiles[x] &&
                                   SourceOf(w'.releases, w'.frozenFiles[x]) == SourceOf(w.releases, w.frozenFiles[x])
    ensures x !in w.frozenFiles ==>
              w'.frozenFiles[x].origin.Some? && w'.frozenFiles[x].origin.value in w.files &&
              SourceOf(w'.releases, w'.frozenFiles[x]) == Some(d) &&
              var o := w.files[w'.frozenFiles[x].origin.value];
              o.dataset == d && w'.frozenFiles[x].storage == o.storage &&
              w'.frozenFiles[x].versionNum == o.versionNum && w'.frozenFiles[x].versionId == o.versionId
  {
    if x !in w.frozenFiles {
      assert w'.frozenFiles[x].dataset == w.next;
      assert IsFileCopy(w, d, w.next, w'.frozenFolders, w'.frozenFiles[x], w'.frozenFiles[x].origin.value);
    } else {
      assert w.frozenFiles[x].dataset in w.releases;
    }
  }

  lemma FrozeBytes(w: World, d: Id, n: nat, w': World)
    requires Orderly(w) && BytesExact(w.files, w.frozenFiles, w.objects) && Froze(w, d, n, w')
    ensures BytesExact(w'.files, w'.frozenFiles, w'.objects)
  {
    forall x | x in w'.frozenFiles && x !in w.frozenFiles ensures Shares(w.files, w'.frozenFiles[x]) {
      FrozenFileOrOld(w, d, n, w', x);
    }
    SharingNeedsNoBytes(w.files, w.frozenFiles, w'.frozenFiles);
  }

  /** A frozen file whose bytes a working file keeps. */
  predicate Shares(files: map<Id, File>, frozen: File) {
    frozen.origin.Some? && frozen.origin.value in files && files[frozen.origin.value].storage == frozen.storage
  }

  lemma SharingNeedsNoBytes(files: map<Id, File>, frozenFiles: map<Id, File>, more: map<Id, File>)
    requires forall x :: x in frozenFiles ==> x in more && more[x] == frozenFiles[x]
    requires forall x :: x in more && x !in frozenFiles ==> Shares(files, more[x])
    ensures LiveKeys(files, more) == LiveKeys(files, frozenFiles)
  {
  }

  lemma FrozeLineage(w: World, d: Id, n: nat, w': World)
    requires Orderly(w) && Froze(w, d, n, w')
    ensures Lineage(w'.releases, w'.files, w'.frozenFiles)
  {
    forall x, y | Share(w'.frozenFiles, x, y)
      ensures w'.frozenFiles[x].storage == w'.frozenFiles[y].storage
      ensures SourceOf(w'.releases, w'.frozenFiles[x]) == SourceOf(w'.releases, w'.frozenFiles[y])
    {
      FrozenFileOrOld(w, d, n, w', x);
      FrozenFileOrOld(w, d, n, w', y);
      if x in w.frozenFiles && y in w.frozenFiles {
        assert Share(w.frozenFiles, x, y);
      } else if x in w.frozenFiles {
        assert ShareWorking(w.files, w.frozenFiles, x, w'.frozenFiles[y].origin.value);
      } else if y in w.frozenFiles {
        assert ShareWorking(w.files, w.frozenFiles, y, w'.frozenFiles[x].origin.value);
      }
    }
    forall x, f | ShareWorking(w'.files, w'.frozenFiles, x, f)
      ensures w'.frozenFiles[x].storage == w'.files[f].storage
      ensures SourceOf(w'.releases, w'.frozenFiles[x]) == Some(w'.files[f].dataset)
    {
      FrozenFileOrOld(w, d, n, w', x);
      assert x in w.frozenFiles ==> ShareWorking(w.files, w.frozenFiles, x, f);
    }
  }

  lemma FrozeHistory(w: World, d: Id, n: nat, w': World)
    requires Orderly(w) && Froze(w, d, n, w')
    ensures History(w'.files, w'.frozenFiles, w'.versions)
  {
    FrozeRecordsLeft(w, d, n, w');
    FrozePins(w, d, n, w');
    assert WorkingSame(w, w');
    hide IdsIssued, Owned, Numbered, Lineage, RecordsLeft, Recorded, Pinned, Froze;
  }

  lemma FrozePins(w: World, d: Id, n: nat, w': World)
    requires Orderly(w) && Froze(w, d, n, w')
    ensures forall x, f {:trigger ShareWorking(w'.files, w'.frozenFiles, x, f)} ::
              ShareWorking(w'.files, w'.frozenFiles, x, f) ==> Pinned(w'.versions, f, w'.files[f], w'.frozenFiles[x])
  {
    forall x, f | ShareWorking(w'.files, w'.frozenFiles, x, f)
      ensures Pinned(w'.versions, f, w'.files[f], w'.frozenFiles[x])
    {
      assert f in w.files;
      FrozenFileOrOld(w, d, n, w', x);
      hide Orderly, Froze;
      PinOrOld(w, w', x, f);
    }
  }

  lemma PinOrOld(w: World, w': World, x: Id, f: Id)
    requires History(w.files, w.frozenFiles, w.versions) && w'.files == w.files && w'.versions == w.versions
    requires ShareWorking(w'.files, w'.frozenFiles, x, f) && (x in w.frozenFiles ==> w'.frozenFiles[x] == w.frozenFiles[x])
    requires x !in w.frozenFiles ==>
               var file, frozen := w.files[f], w'.frozenFiles[x];
               frozen.storage == file.storage && frozen.versionNum == file.versionNum && frozen.versionId == file.versionId
    ensures Pinned(w'.versions, f, w'.files[f], w'.frozenFiles[x])
  {
    if x in w.frozenFiles {
      assert ShareWorking(w.files, w.frozenFiles, x, f);
    } else {
      assert Recorded(w.versions, f, w.files[f]);
    }
  }

  lemma FrozeRecordsLeft(w: World, d: Id, n: nat, w': World)
    requires Orderly(w) && Froze(w, d, n, w')
    ensures RecordsLeft(w'.files, w'.frozenFiles, w'.versions)
  {
    forall x, v | OfOrigin(w'.frozenFiles, w'.versions, x, v) ensures w'.versions[v].file in w'.files {
      FrozenFileOrOld(w, d, n, w', x);
      assert x in w.frozenFiles ==> OfOrigin(w.frozenFiles, w.versions, x, v);
    }
  }

  lemma FrozeNumbers(w: World, d: Id, n: nat, w': World)
    requires Orderly(w) && Froze(w, d, n, w')
    ensures Numbered(w'.datasets, w'.releases)
  {
    NextNumbered(w.datasets, w.releases, w.next, Release(w.datasets[d].name, d, n, false));
  }

  /** One more release under the next number. */
  lemma NextNumbered(datasets: map<Id, Dataset>, releases: map<Id, Release>, fd: Id, release: Release)
    requires Numbered(datasets, releases) && fd !in releases && release.origin in datasets && release.number >= 0
    requires IsNextNumber(releases, release.origin, release.number)
    ensures Numbered(datasets, releases[fd := release])
  {
    var more, d, n := releases[fd := release], release.origin, release.number;
    assert forall gd, e, m :: IsVersion(more, gd, e, m) <==>
                              IsVersion(releases, gd, e, m) || (gd == fd && e == d && m == n);
    forall gd, hd, e, m | IsVersion(more, gd, e, m) && IsVersion(more, hd, e, m) ensures gd == hd {
      assert e == d && gd in releases ==> gd in ReleasesOf(releases, d);
      assert e == d && hd in releases ==> hd in ReleasesOf(releases, d);
    }
    forall gd, e, m, k | IsVersion(more, gd, e, m) && 1 <= k <= m ensures HasVersion(more, e, k) {
      if gd == fd && k == n {
        assert IsVersion(more, fd, d, n);
      } else {
        var last := gd;
        if gd == fd {
          last :| last in ReleasesOf(releases, d) && releases[last].number == n - 1;
        }
        assert IsVersion(releases, last, e, releases[last].number);
        assert HasVersion(releases, e, k);
        var hd :| IsVersion(releases, hd, e, k);
        assert IsVersion(more, hd, e, k);
      }
    }
  }

  lemma FrozeOwners(w: World, w': World)
    requires IdsBelow(w) && OnlyAdds(w, w.next, w') && w.next < w'.next
    ensures OwnersIssued(w'.frozenMetadata, w'.next) && OwnersIssued(w'.frozenVisConfigs, w'.next)
    ensures OwnersIssued(w'.frozenVisData, w'.next)
  {
    forall m | m in w'.frozenMetadata ensures w'.frozenMetadata[m].owner.id < w'.next {
      assert m !in w.frozenMetadata ==> InRelease(w', w.next, w'.frozenMetadata[m].owner);
    }
    forall c | c in w'.frozenVisConfigs ensures w'.frozenVisConfigs[c].owner.id < w'.next {
      assert c !in w.frozenVisConfigs ==> InRelease(w', w.next, w'.frozenVisConfigs[c].owner);
    }
  }

  lemma FrozeIds(w: World, d: Id, n: nat, w': World)
    requires Orderly(w) && Froze(w, d, n, w')
    ensures IdsIssued(w')
  {
    hide Lineage, Numbered, Owned;
    FrozeOwners(w, w');
    FrozenOriginsIssued(w, d, n, w');
    GrownAuthsBelow(w, w');
    GrownIdsBelow(w, w');
    GrownIdsApart(w, w');
  }

  lemma FrozenOriginsIssued(w: World, d: Id, n: nat, w': World)
    requires Orderly(w) && Froze(w, d, n, w')
    ensures forall x :: x in w'.frozenFiles ==>
              w'.frozenFiles[x].origin.Some? && w'.frozenFiles[x].origin.value < w'.next
  {
    forall x | x in w'.frozenFiles
      ensures w'.frozenFiles[x].origin.Some? && w'.frozenFiles[x].origin.value < w'.next {
      FrozenFileOrOld(w, d, n, w', x);
    }
  }

  lemma GrownIdsBelow(w: World, w': World)
    requires IdsBelow(w) && OnlyAdds(w, w.next, w') && w.next < w'.next && WorkingSame(w, w')
    requires w'.releases.Keys == w.releases.Keys + {w.next}
    requires Issued(w'.auths, w'.next) && forall a :: a in w'.auths ==> w'.auths[a].dataset < w'.next
    requires OwnersIssued(w'.frozenMetadata, w'.next) && OwnersIssued(w'.frozenVisConfigs, w'.next)
    requires OwnersIssued(w'.frozenVisData, w'.next)
    requires forall x :: x in w'.frozenFiles ==>
               w'.frozenFiles[x].origin.Some? && w'.frozenFiles[x].origin.value < w'.next
    ensures IdsBelow(w')
  {
    hide OwnersIssued, InRelease, NewConfig;
  }

  lemma GrownAuthsBelow(w: World, w': World)
    requires Issued(w.auths, w.next) && (forall a :: a in w.auths ==> w.auths[a].dataset < w.next)
    requires w.next + 1 < w'.next && exists a :: w'.auths == w.auths[w'.next - 1 := a] && a.dataset == w.next
    ensures Issued(w'.auths, w'.next) && forall a :: a in w'.auths ==> w'.auths[a].dataset < w'.next
  {
  }

  lemma GrownIdsApart(w: World, w': World)
    requires IdsIssued(w) && OnlyAdds(w, w.next, w') && WorkingSame(w, w')
    requires w'.releases.Keys == w.releases.Keys + {w.next}
    ensures IdsApart(w')
  {
  }

  lemma FrozeOwned(w: World, d: Id, n: nat, w': World)
    requires Orderly(w) && Froze(w, d, n, w')
    ensures Owned(w'.releases, w'.frozenFolders, w'.frozenFiles)
  {
  }

  /** A freeze keeps what every route keeps, even of a dataset that refers into another. */
  lemma FreezeKeepsOrder(w: World, d: Id, n: nat, w': World)
    requires Orderly(w) && Froze(w, d, n, w')
    ensures Orderly(w')
  {
    FrozeIds(w, d, n, w');
    FrozeOwned(w, d, n, w');
    FrozeLineage(w, d, n, w');
    FrozeHistory(w, d, n, w');
    FrozeNumbers(w, d, n, w');
  }

  /** So does one that ends with an exception. */
  lemma BrokenFreezeKeepsOrder(w: World, d: Id, n: nat, w': World)
    requires Orderly(w) && FreezeBroke(w, d, n, w')
    ensures Orderly(w')
  {
    hide BrokenOff, ResourceCopied, IdsIssued, History, Numbered;
    BrokeIds(w, d, n, w');
    BrokeNumbers(w, d, n, w');
    BrokeLineage(w, d, n, w');
  }

  lemma BrokeLineage(w: World, d: Id, n: nat, w': World)
    requires Orderly(w) && FreezeBroke(w, d, n, w')
    ensures Lineage(w'.releases, w'.files, w'.frozenFiles)
  {
    hide BrokenOff, ResourceCopied, OnlyAdds, History, Numbered;
    LineageKept(w, w'.releases, w'.files, w'.frozenFiles);
  }

  lemma BrokeNumbers(w: World, d: Id, n: nat, w': World)
    requires Orderly(w) && FreezeBroke(w, d, n, w')
    ensures Numbered(w'.datasets, w'.releases)
  {
    NextNumbered(w.datasets, w.releases, w.next, Release(w.datasets[d].name, d, n, false));
  }

  lemma BrokeIds(w: World, d: Id, n: nat, w': World)
    requires Orderly(w) && FreezeBroke(w, d, n, w')
    ensures IdsIssued(w')
  {
    hide Lineage, Numbered, History, Owned, BrokenOff, ResourceCopied;
    FrozeOwners(w, w');
    GrownIdsBelow(w, w');
    GrownIdsApart(w, w');
  }

  lemma AnyFreezeKeepsOrder(w: World, d: Id, n: nat, w': World)
    requires Orderly(w) && FreezeEnded(w, d, n, w')
    ensures Orderly(w')
  {
    hide Orderly;
    if Closed(Reached(w.folders, d)) {
      FreezeKeepsOrder(w, d, n, w');
    } else {
      BrokenFreezeKeepsOrder(w, d, n, w');
    }
  }

  /** Where the working folders are in order no freeze ends with an exception. */
  lemma FreezeGoesThrough(w: World, d: Id, n: nat, w': World)
    requires Inv(w) && FreezeEnded(w, d, n, w')
    ensures Froze(w, d, n, w')
  {
    ReachedInForest(w.folders, d);
  }

  /** Every frozen file lies in a frozen folder, or in none, exactly when every file of the dataset lies in a
      folder the freeze reaches, or in none: a file in a folder of another dataset keeps the working folder. */
  lemma FilesStayInsideIff(w: World, d: Id, n: nat, w': World)
    requires Orderly(w) && Froze(w, d, n, w')
    ensures (forall x :: x in w'.frozenFiles && w'.frozenFiles[x].dataset == w.next && w'.frozenFiles[x].folder.Some? ==>
               w'.frozenFiles[x].folder.value in w'.frozenFolders) <==>
            (forall o :: o in w.files && w.files[o].dataset == d && w.files[o].folder.Some? ==>
               AboveDataset(w.folders, d, w.files[o].folder.value))
  {
    hide AboveDataset, ResourceCopied, FoldersCopied, Lineage, History, Numbered;
    forall x | x in w'.frozenFiles && w'.frozenFiles[x].dataset == w.next && w'.frozenFiles[x].folder.Some?
      ensures w'.frozenFiles[x].origin.Some? && w'.frozenFiles[x].origin.value in w.files
      ensures w.files[w'.frozenFiles[x].origin.value].folder.Some?
      ensures w'.frozenFiles[x].folder.value in w'.frozenFolders <==>
              AboveDataset(w.folders, d, w.files[w'.frozenFiles[x].origin.value].folder.value)
    {
      assert IsFileCopy(w, d, w.next, w'.frozenFolders, w'.frozenFiles[x], w'.frozenFiles[x].origin.value);
    }
    forall o | o in w.files && w.files[o].dataset == d && w.files[o].folder.Some?
      ensures exists x :: FileCopyOf(w'.frozenFiles, w.next, x, o) && w'.frozenFiles[x].folder.Some?
    {
      assert o in FilesOf(w.files, {d});
      var x :| FileCopyOf(w'.frozenFiles, w.next, x, o);
      assert IsFileCopy(w, d, w.next, w'.frozenFolders, w'.frozenFiles[x], o);
    }
  }

  /** Freezing always keeps the invariant: the copies point into the new release, share the bytes of
      their origins and pin their versions, and the number is the next one. */
  lemma FreezeKeeps(w: World, d: Id, n: nat, w': World)
    requires Inv(w) && Froze(w, d, n, w')
    ensures Inv(w')
  {
    InvIsOrderly(w);
    FreezeKeepsOrder(w, d, n, w');
    FrozeTree(w, d, n, w');
    FrozeBytes(w, d, n, w');
  }

  // ----- Deleting a dataset -----

  /** The object keys of a dataset: its files' and those its releases' files were copied from. */
  ghost function KeysOf(w: World, d: Id): set<Id> {
    FilesOf(w.files, {d}) +
    (set x | x in FilesOf(w.frozenFiles, ReleasesOf(w.releases, d)) && w.frozenFiles[x].origin.Some? ::
       w.frozenFiles[x].origin.value)
  }

  /** `delete_dataset` takes exactly the keys of the dataset and all its releases, soft-deleted ones
      included, and no other key. */
  lemma DeleteDatasetTakesItsKeys(w: World, d: Id)
    requires BytesExact(w.files, w.frozenFiles, w.objects) && Lineage(w.releases, w.files, w.frozenFiles)
    requires d in w.datasets
    ensures DeleteDataset(w, d).0.objects == w.objects - KeysOf(w, d)
  {
    var gone := ReleasesOf(w.releases, d);
    var doomed := FilesOf(w.frozenFiles, gone);
    var rest := w.frozenFiles - doomed;
    var mine := FilesOf(w.files, {d});
    forall o | o in w.objects
      ensures o in KeysOf(w, d) <==> Orphaned(w, doomed, o) || (o in mine && !HasFrozenCopy(rest, o))
    {
      LiveKeyIsMinio(w.releases, w.files, w.frozenFiles, o);
      if HasFrozenCopy(rest, o) {
        var y :| y in rest && rest[y].origin == Some(o);
        assert SourceOf(w.releases, w.frozenFiles[y]) != Some(d);
        assert o in w.files ==> ShareWorking(w.files, w.frozenFiles, y, o);
        assert forall x :: x in w.frozenFiles && w.frozenFiles[x].origin == Some(o) ==> Share(w.frozenFiles, x, y);
        assert o !in KeysOf(w, d);
      }
      if x :| x in doomed && w.frozenFiles[x].origin == Some(o) {
        assert SourceOf(w.releases, w.frozenFiles[x]) == Some(d);
        assert o in w.files ==> ShareWorking(w.files, w.frozenFiles, x, o);
        assert o in KeysOf(w, d);
      }
    }
  }

  predicate OwnedByDataset(w: World, d: Id, owner: Ref) {
    owner == Ref(Datasets, d) || (owner.collection == Files && owner.id in w.files && w.files[owner.id].dataset == d)
  }

  predicate OwnedByRelease(w: World, gone: set<Id>, owner: Ref) {
    (owner.collection == Datasets && owner.id in gone) ||
    (owner.collection == Files && owner.id in w.frozenFiles && w.frozenFiles[owner.id].dataset in gone)
  }

  ghost predicate WorkingGone(w: World, d: Id, w': World) {
    && w'.datasets == w.datasets - {d}
    && w'.folders == w.folders - FoldersOf(w.folders, {d})
    && w'.files == w.files - FilesOf(w.files, {d})
    && w'.versions == (map v | v in w.versions && w.versions[v].file !in FilesOf(w.files, {d}) :: w.versions[v])
    && w'.metadata == (map m | m in w.metadata && !OwnedByDataset(w, d, w.metadata[m].owner) :: w.metadata[m])
  }

  ghost predicate ReleasesGone(w: World, gone: set<Id>, w': World) {
    && w'.releases == w.releases - gone
    && w'.frozenFolders == w.frozenFolders - FoldersOf(w.frozenFolders, gone)
    && w'.frozenFiles == w.frozenFiles - FilesOf(w.frozenFiles, gone)
    && w'.frozenMetadata == (map m | m in w.frozenMetadata &&
                                     !OwnedByRelease(w, gone, w.frozenMetadata[m].owner) :: w.frozenMetadata[m])
  }

  /** Nothing of the dataset or any of its releases is left, and nothing of any other is touched. */
  lemma DeleteDatasetIsComplete(w: World, d: Id)
    requires Inv(w) && d in w.datasets
    ensures WorkingGone(w, d, DeleteDataset(w, d).0)
    ensures ReleasesGone(w, ReleasesOf(w.releases, d), DeleteDataset(w, d).0)
    ensures DeleteDataset(w, d).0.auths ==
            map a | a in w.auths && w.auths[a].dataset !in ReleasesOf(w.releases, d) + {d} :: w.auths[a]
    ensures DeleteDataset(w, d).0.objects == w.objects - KeysOf(w, d)
  {
    DeleteDatasetTakesItsKeys(w, d);
    DeleteDatasetWorking(w, d);
    DeleteDatasetReleases(w, d);
    DeleteDatasetAuths(w, d);
  }

  lemma DeleteDatasetAuths(w: World, d: Id)
    requires d in w.datasets
    ensures DeleteDataset(w, d).0.auths ==
            map a | a in w.auths && w.auths[a].dataset !in ReleasesOf(w.releases, d) + {d} :: w.auths[a]
  {
  }

  lemma DeleteDatasetWorking(w: World, d: Id)
    requires d in w.datasets
    ensures WorkingGone(w, d, DeleteDataset(w, d).0)
  {
    var gone := ReleasesOf(w.releases, d);
    var w1 := DropReleases(w, gone).(releases := w.releases - gone);
    DropDatasetWorking(w1, d);
    assert w1.datasets == w.datasets && w1.folders == w.folders && w1.files == w.files;
    assert w1.versions == w.versions && w1.metadata == w.metadata;
  }

  lemma DropDatasetWorking(w: World, d: Id)
    ensures WorkingGone(w, d, DropDataset(w, d))
  {
  }

  lemma DeleteDatasetReleases(w: World, d: Id)
    requires d in w.datasets && w.releases.Keys !! w.frozenFiles.Keys
    requires ReleaseTree(w.releases, w.frozenFolders, w.frozenFiles, w.frozenMetadata)
    ensures ReleasesGone(w, ReleasesOf(w.releases, d), DeleteDataset(w, d).0)
  {
    var gone := ReleasesOf(w.releases, d);
    var w' := DropReleases(w, gone);
    forall m | m in w.frozenMetadata
      ensures m in w'.frozenMetadata <==> !OwnedByRelease(w, gone, w.frozenMetadata[m].owner) {
      var owner := w.frozenMetadata[m].owner;
      assert owner.collection == Datasets ==> owner.id !in w.frozenFiles;
    }
    assert DeleteDataset(w, d).0.frozenMetadata == w'.frozenMetadata;
  }

  lemma DeleteDatasetTree(w: World, d: Id)
    requires WorkingTree(w.datasets, w.folders, w.files)
    ensures WorkingTree(w.datasets - {d}, w.folders - FoldersOf(w.folders, {d}), w.files - FilesOf(w.files, {d}))
  {
    var doomed := FoldersOf(w.folders, {d});
    var folders := w.folders - doomed;
    assert DownClosed(w.folders, doomed);
    RemovingSubtrees(w.folders, doomed);
    assert forall f :: HasParent(folders, f) ==> HasParent(w.folders, f);
  }

  lemma DeleteDatasetNumbers(w: World, d: Id)
    requires Numbered(w.datasets, w.releases)
    ensures Numbered(w.datasets - {d}, w.releases - ReleasesOf(w.releases, d))
  {
    var releases := w.releases - ReleasesOf(w.releases, d);
    assert forall gd, e, m :: IsVersion(releases, gd, e, m) <==> IsVersion(w.releases, gd, e, m) && e != d;
    forall gd, e, m, k | IsVersion(releases, gd, e, m) && 1 <= k <= m ensures HasVersion(releases, e, k) {
      assert HasVersion(w.releases, e, k);
      var hd :| IsVersion(w.releases, hd, e, k);
      assert IsVersion(releases, hd, e, k);
    }
  }

  lemma DeleteDatasetBytes(w: World, d: Id)
    requires BytesExact(w.files, w.frozenFiles, w.objects) && Lineage(w.releases, w.files, w.frozenFiles)
    requires d in w.datasets
    ensures var w' := DeleteDataset(w, d).0; BytesExact(w'.files, w'.frozenFiles, w'.objects)
  {
    var gone := ReleasesOf(w.releases, d);
    var w1 := DropReleases(w, gone);
    DropReleasesBytes(w, gone);
    LineageKept(w, w1.releases, w1.files, w1.frozenFiles);
    DropFilesBytes(w1, FilesOf(w.files, {d}));
  }

  lemma DeleteDatasetKeeps(w: World, d: Id)
    requires Inv(w) && d in w.datasets
    ensures Inv(DeleteDataset(w, d).0)
  {
    var w', gone := DeleteDataset(w, d).0, ReleasesOf(w.releases, d);
    DeleteDatasetIsComplete(w, d);
    DeleteDatasetShrinks(w, d);
    ShrunkIds(w, w');
    DeleteDatasetTree(w, d);
    DeleteDatasetNumbers(w, d);
    DeleteDatasetBytes(w, d);
    DropReleasesTree(w, gone);
    assert w'.frozenFolders == DropReleases(w, gone).frozenFolders && w'.frozenFiles == DropReleases(w, gone).frozenFiles;
    DeleteDatasetHistory(w, d, w');
    assert NoStrays(w'.files, w'.versions);
  }

  lemma DeleteDatasetShrinks(w: World, d: Id)
    requires d in w.datasets
    ensures Shrunk(w, DeleteDataset(w, d).0)
  {
  }

  lemma DeleteDatasetHistory(w: World, d: Id, w': World)
    requires Orderly(w) && WorkingGone(w, d, w')
    requires w'.releases == w.releases - ReleasesOf(w.releases, d)
    requires w'.frozenFiles == w.frozenFiles - FilesOf(w.frozenFiles, ReleasesOf(w.releases, d))
    ensures History(w'.files, w'.frozenFiles, w'.versions) && Lineage(w'.releases, w'.files, w'.frozenFiles)
  {
    forall x, v | OfOrigin(w'.frozenFiles, w'.versions, x, v) ensures w'.versions[v].file in w'.files {
      assert OfOrigin(w.frozenFiles, w.versions, x, v);
    }
    HistoryKept(w, w'.files, w'.frozenFiles, w'.versions);
    LineageKept(w, w'.releases, w'.files, w'.frozenFiles);
  }

  lemma DeleteDatasetKeepsOrder(w: World, d: Id)
    requires Orderly(w) && d in w.datasets
    ensures Orderly(DeleteDataset(w, d).0)
  {
    var w', gone := DeleteDataset(w, d).0, ReleasesOf(w.releases, d);
    DeleteDatasetShrinks(w, d);
    ShrunkIds(w, w');
    DeleteDatasetNumbers(w, d);
    DeleteDatasetWorking(w, d);
    DeleteDatasetOwned(w, d);
    DeleteDatasetHistory(w, d, w');
  }

  lemma DeleteDatasetOwned(w: World, d: Id)
    requires Orderly(w) && d in w.datasets
    ensures var w' := DeleteDataset(w, d).0;
            && w'.releases == w.releases - ReleasesOf(w.releases, d)
            && w'.frozenFiles == w.frozenFiles - FilesOf(w.frozenFiles, ReleasesOf(w.releases, d))
            && Owned(w'.releases, w'.frozenFolders, w'.frozenFiles)
  {
    var w', gone := DeleteDataset(w, d).0, ReleasesOf(w.releases, d);
    var w1 := DropReleases(w, gone);
    assert w'.frozenFolders == w1.frozenFolders && w'.frozenFiles == w1.frozenFiles;
  }
}
