/** What every reachable state keeps. Each part names only the collections it speaks about. */
module Invariant {
  import opened Types
  import opened Forest
  import opened State

  ghost predicate Issued<T(!new)>(m: map<Id, T>, next: Id) {
    forall k :: k in m ==> k < next
  }

  ghost predicate OwnersIssued(m: map<Id, Doc>, next: Id) {
    forall k :: k in m ==> m[k].owner.id < next
  }

  /** Ids in use, and ids frozen records point to, were handed out before. */
  ghost predicate IdsBelow(w: World) {
    && Issued(w.datasets, w.next) && Issued(w.releases, w.next)
    && Issued(w.folders, w.next) && Issued(w.frozenFolders, w.next)
    && Issued(w.files, w.next) && Issued(w.frozenFiles, w.next) && Issued(w.versions, w.next)
    && Issued(w.metadata, w.next) && Issued(w.frozenMetadata, w.next)
    && Issued(w.frozenVisConfigs, w.next) && Issued(w.frozenVisData, w.next) && Issued(w.auths, w.next)
    && OwnersIssued(w.frozenMetadata, w.next) && OwnersIssued(w.frozenVisConfigs, w.next)
    && OwnersIssued(w.frozenVisData, w.next)
    && (forall x :: x in w.frozenFiles ==> w.frozenFiles[x].origin.Some? && w.frozenFiles[x].origin.value < w.next)
    && (forall v :: v in w.versions ==> w.versions[v].file < w.next)
    && (forall f :: f in w.files && w.files[f].folder.Some? ==> w.files[f].folder.value < w.next)
    && (forall a :: a in w.auths ==> w.auths[a].dataset < w.next)
  }

  /** Working and frozen records never share an id. */
  ghost predicate IdsApart(w: World) {
    && w.folders.Keys !! w.frozenFolders.Keys && w.files.Keys !! w.frozenFiles.Keys
    && w.datasets.Keys !! w.releases.Keys && w.releases.Keys !! w.frozenFiles.Keys
    && (forall v :: v in w.versions ==> w.versions[v].file !in w.frozenFiles)
    && (forall f :: f in w.files && w.files[f].folder.Some? ==> w.files[f].folder.value !in w.frozenFolders)
  }

  ghost predicate IdsIssued(w: World) {
    IdsBelow(w) && IdsApart(w)
  }

  /** The working folders form a forest inside their datasets, and files hang in it. */
  ghost predicate WorkingTree(datasets: map<Id, Dataset>, folders: Folders, files: map<Id, File>) {
    && Acyclic(folders) && Closed(folders) && OneDataset(folders)
    && (forall f :: f in folders ==> folders[f].dataset in datasets)
    && (forall x :: x in files ==> files[x].dataset in datasets)
    && (forall x :: x in files && files[x].folder.Some? ==>
          files[x].folder.value in folders && folders[files[x].folder.value].dataset == files[x].dataset)
  }

  /** Every reference of a frozen record leads to a record of the same release; a frozen parent is
      older than its children. */
  ghost predicate ReleaseTree(releases: map<Id, Release>, frozenFolders: Folders, frozenFiles: map<Id, File>,
                              frozenMetadata: map<Id, Doc>) {
    && (forall k :: k in frozenFolders ==> frozenFolders[k].dataset in releases)
    && (forall k {:trigger frozenFolders[k].parent.value} :: k in frozenFolders && frozenFolders[k].parent.Some? ==>
          frozenFolders[k].parent.value in frozenFolders && frozenFolders[k].parent.value < k &&
          frozenFolders[frozenFolders[k].parent.value].dataset == frozenFolders[k].dataset)
    && (forall x :: x in frozenFiles ==> frozenFiles[x].dataset in releases)
    && (forall x :: x in frozenFiles && frozenFiles[x].folder.Some? ==>
          frozenFiles[x].folder.value in frozenFolders &&
          frozenFolders[frozenFiles[x].folder.value].dataset == frozenFiles[x].dataset)
    && (forall m :: m in frozenMetadata ==>
          (frozenMetadata[m].owner.collection == Datasets && frozenMetadata[m].owner.id in releases) ||
          (frozenMetadata[m].owner.collection == Files && frozenMetadata[m].owner.id in frozenFiles))
  }

  /** Keys some record still needs: working Minio files, and origins of frozen Minio files. */
  ghost function LiveKeys(files: map<Id, File>, frozenFiles: map<Id, File>): set<Id> {
    (set f | f in files && files[f].storage == Minio) +
    (set x | x in frozenFiles && frozenFiles[x].storage == Minio && frozenFiles[x].origin.Some? ::
       frozenFiles[x].origin.value)
  }

  /** Nothing live is lost and nothing is leaked. */
  ghost predicate BytesExact(files: map<Id, File>, frozenFiles: map<Id, File>, objects: set<Id>) {
    objects == LiveKeys(files, frozenFiles)
  }

  /** The working dataset a frozen file was copied from. */
  function SourceOf(releases: map<Id, Release>, file: File): Option<Id> {
    if file.dataset in releases then Some(releases[file.dataset].origin) else None
  }

  /** Two frozen files whose bytes are one object. */
  predicate Share(frozenFiles: map<Id, File>, x: Id, y: Id) {
    x in frozenFiles && y in frozenFiles && frozenFiles[x].origin == frozenFiles[y].origin
  }

  /** Working file `f` and frozen file `x` are one object. */
  predicate ShareWorking(files: map<Id, File>, frozenFiles: map<Id, File>, x: Id, f: Id) {
    x in frozenFiles && f in files && frozenFiles[x].origin == Some(f)
  }

  /** Files that share bytes agree on the storage and come from one dataset. */
  ghost predicate Lineage(releases: map<Id, Release>, files: map<Id, File>, frozenFiles: map<Id, File>) {
    && (forall x, y {:trigger Share(frozenFiles, x, y)} :: Share(frozenFiles, x, y) ==>
          frozenFiles[x].storage == frozenFiles[y].storage &&
          SourceOf(releases, frozenFiles[x]) == SourceOf(releases, frozenFiles[y]))
    && (forall x, f {:trigger ShareWorking(files, frozenFiles, x, f)} :: ShareWorking(files, frozenFiles, x, f) ==>
          frozenFiles[x].storage == files[f].storage &&
          SourceOf(releases, frozenFiles[x]) == Some(files[f].dataset))
  }

  /** The version records of `f` are 1..versionNum, one each, and the last carries its version id. */
  ghost predicate Recorded(versions: map<Id, FileVersion>, f: Id, file: File) {
    && (forall v, num :: Records(versions, v, f, num) ==>
          1 <= num <= file.versionNum && (num == file.versionNum ==> versions[v].versionId == file.versionId))
    && (forall u, v, num :: Records(versions, u, f, num) && Records(versions, v, f, num) ==> u == v)
    && (forall num :: 1 <= num <= file.versionNum ==> HasRecord(versions, f, num))
    && (file.storage == Minio ==> file.versionNum >= 1)
  }

  /** The number a frozen copy carries leads to the version it was frozen at. */
  ghost predicate Pinned(versions: map<Id, FileVersion>, f: Id, file: File, frozen: File) {
    && frozen.versionNum <= file.versionNum
    && (forall v :: Records(versions, v, f, frozen.versionNum) ==> versions[v].versionId == frozen.versionId)
    && (frozen.storage == Minio ==> frozen.versionNum >= 1)
  }

  /** Record `v` is of the file that the stored frozen file `x` was copied from. */
  predicate OfOrigin(frozenFiles: map<Id, File>, versions: map<Id, FileVersion>, x: Id, v: Id) {
    x in frozenFiles && v in versions && frozenFiles[x].storage == Minio && frozenFiles[x].origin == Some(versions[v].file)
  }

  /** Stored frozen files have version records as long as the file they were copied from is there. */
  ghost predicate RecordsLeft(files: map<Id, File>, frozenFiles: map<Id, File>, versions: map<Id, FileVersion>) {
    forall x, v :: OfOrigin(frozenFiles, versions, x, v) ==> versions[v].file in files
  }

  /** The version records of every working file are complete, and frozen copies lead to theirs. */
  ghost predicate History(files: map<Id, File>, frozenFiles: map<Id, File>, versions: map<Id, FileVersion>) {
    && RecordsLeft(files, frozenFiles, versions)
    && (forall f {:trigger Recorded(versions, f, files[f])} :: f in files ==> Recorded(versions, f, files[f]))
    && (forall x, f {:trigger ShareWorking(files, frozenFiles, x, f)} :: ShareWorking(files, frozenFiles, x, f) ==>
          Pinned(versions, f, files[f], frozenFiles[x]))
  }

  /** Version records are those of stored working files. */
  ghost predicate NoStrays(files: map<Id, File>, versions: map<Id, FileVersion>) {
    && (forall v :: v in versions ==> versions[v].file in files)
    && (forall f :: f in files && files[f].storage == Local ==> files[f].versionNum == 0)
  }

  ghost predicate HasVersion(releases: map<Id, Release>, d: Id, number: int) {
    exists fd :: IsVersion(releases, fd, d, number)
  }

  /** The releases of a dataset are numbered 1..n without repeats, and their dataset is there. */
  ghost predicate Numbered(datasets: map<Id, Dataset>, releases: map<Id, Release>) {
    && (forall fd :: fd in releases ==> releases[fd].origin in datasets && releases[fd].number >= 1)
    && (forall fd, gd, d, n :: IsVersion(releases, fd, d, n) && IsVersion(releases, gd, d, n) ==> fd == gd)
    && (forall fd, d, n, k {:trigger IsVersion(releases, fd, d, n), HasVersion(releases, d, k)} ::
          IsVersion(releases, fd, d, n) && 1 <= k <= n ==> HasVersion(releases, d, k))
  }

  /** Frozen folders and files belong to releases there are. */
  ghost predicate Owned(releases: map<Id, Release>, frozenFolders: Folders, frozenFiles: map<Id, File>) {
    && (forall k :: k in frozenFolders ==> frozenFolders[k].dataset in releases)
    && (forall x :: x in frozenFiles ==> frozenFiles[x].dataset in releases)
  }

  /** What every route keeps, whatever it is called with. */
  ghost predicate Orderly(w: World) {
    && IdsIssued(w)
    && Owned(w.releases, w.frozenFolders, w.frozenFiles)
    && Lineage(w.releases, w.files, w.frozenFiles)
    && History(w.files, w.frozenFiles, w.versions)
    && Numbered(w.datasets, w.releases)
  }

  ghost predicate Inv(w: World) {
    && IdsIssued(w)
    && WorkingTree(w.datasets, w.folders, w.files)
    && ReleaseTree(w.releases, w.frozenFolders, w.frozenFiles, w.frozenMetadata)
    && BytesExact(w.files, w.frozenFiles, w.objects)
    && Lineage(w.releases, w.files, w.frozenFiles)
    && History(w.files, w.frozenFiles, w.versions) && NoStrays(w.files, w.versions)
    && Numbered(w.datasets, w.releases)
  }

  lemma InvIsOrderly(w: World)
    requires Inv(w)
    ensures Orderly(w)
  {
  }

  const EMPTY: World := World(map[], map[], map[], map[], map[], map[], map[], map[], map[], map[], map[], map[],
                              map[], map[], {}, 0)

  lemma EmptyIds()
    ensures IdsIssued(EMPTY)
  {
  }

  lemma EmptyIsFine()
    ensures Inv(EMPTY)
  {
    hide IdsIssued;
    EmptyIds();
    assert Ranked(EMPTY.folders, map[]);
  }
}
