/** The steps of a freeze put together: what each loop has reached so far. */
module Freezes {
  import opened Types
  import opened Forest
  import opened FolderFreeze
  import opened State
  import opened Invariant
  import opened Copying

  /** The configs in `done` have one copy each below `to`, with their data. */
  ghost predicate ConfigsCopied(w: World, w': World, to: Ref, done: set<Id>) {
    && (forall c :: c in w'.frozenVisConfigs && w'.frozenVisConfigs[c].owner == to ==>
          ConfigCopied(w, w', to, done, c))
    && (forall o :: o in done ==> exists c :: IsDocCopyOf(w'.frozenVisConfigs, to, c, o))
    && (forall o, c, e :: IsDocCopyOf(w'.frozenVisConfigs, to, c, o) && IsDocCopyOf(w'.frozenVisConfigs, to, e, o) ==>
          c == e)
  }

  ghost predicate ConfigCopied(w: World, w': World, to: Ref, done: set<Id>, c: Id)
    requires c in w'.frozenVisConfigs
  {
    var copy := w'.frozenVisConfigs[c];
    && copy.origin.Some? && copy.origin.value in done && copy.origin.value in w.visConfigs
    && copy == w.visConfigs[copy.origin.value].(owner := to, origin := copy.origin)
    && CopiedTo(w.visData, w'.frozenVisData, Ref(VisConfigs, copy.origin.value), Ref(VisConfigs, c))
  }

  /** No document below `to` yet, nor below anything as new. */
  ghost predicate NothingBelow(w: World, to: Ref) {
    && to.collection != VisConfigs
    && (forall m :: m in w.frozenMetadata ==> w.frozenMetadata[m].owner != to)
    && (forall c :: c in w.frozenVisConfigs ==> w.frozenVisConfigs[c].owner != to)
  }

  predicate WorkingDocs(w: World, w': World) {
    w'.metadata == w.metadata && w'.visConfigs == w.visConfigs && w'.visData == w.visData
  }

  /** The state of freezing one resource: metadata done, configs in `done` done. */
  ghost predicate Copied(w: World, w': World, from: Ref, to: Ref, done: set<Id>) {
    && to.id < w'.next && to.collection != VisConfigs
    && DocsIssued(w') && DocsGrow(w, w', to)
    && CopiedTo(w.metadata, w'.frozenMetadata, from, to)
    && ConfigsCopied(w, w', to, done)
  }

  lemma NoConfigsYet(w: World, w': World, from: Ref, to: Ref)
    requires DocsIssued(w) && NothingBelow(w, to) && to.id < w.next <= w'.next
    requires w' == w.(frozenMetadata := w'.frozenMetadata, next := w'.next)
    requires Grows(w.frozenMetadata, w'.frozenMetadata, w.next, w'.next)
    requires forall k :: k in w'.frozenMetadata && k !in w.frozenMetadata ==> w'.frozenMetadata[k].owner == to
    requires CopiedTo(w.metadata, w'.frozenMetadata, from, to)
    ensures Copied(w, w', from, to, {})
  {
  }

  lemma NoDataYet(w: World, b: World, from: Ref, to: Ref, done: set<Id>, c: Id)
    requires Copied(w, b, from, to, done) && c == b.next
    ensures Issued(b.frozenVisData, c + 1)
    ensures forall v :: v in b.frozenVisData ==> b.frozenVisData[v].owner != Ref(VisConfigs, c)
  {
  }

  /** One more config and its data. */
  lemma OneMoreConfig(w: World, b: World, w': World, from: Ref, to: Ref, done: set<Id>, o: Id, c: Id)
    requires o in w.visConfigs && w.visConfigs[o].owner == from && o !in done
    requires Copied(w, b, from, to, done) && c == b.next && w.next <= b.next
    requires w'.frozenMetadata == b.frozenMetadata
    requires w'.frozenVisConfigs == b.frozenVisConfigs[c := w.visConfigs[o].(owner := to, origin := Some(o))]
    requires c + 1 <= w'.next && Grows(b.frozenVisData, w'.frozenVisData, c + 1, w'.next)
    requires forall v :: v in w'.frozenVisData && v !in b.frozenVisData ==>
               w'.frozenVisData[v].owner == Ref(VisConfigs, c)
    requires CopiedTo(w.visData, w'.frozenVisData, Ref(VisConfigs, o), Ref(VisConfigs, c))
    ensures Copied(w, w', from, to, done + {o})
  {
    ConfigDocsIssued(w, b, w', to, o, c);
    ConfigDocsGrow(w, b, w', to, o, c);
    OneMoreConfigCopied(w, b, w', to, done, o, c);
  }

  lemma OneMoreConfigCopied(w: World, b: World, w': World, to: Ref, done: set<Id>, o: Id, c: Id)
    requires o in w.visConfigs && o !in done && ConfigsCopied(w, b, to, done) && DocsIssued(b) && c == b.next
    requires w'.frozenVisConfigs == b.frozenVisConfigs[c := w.visConfigs[o].(owner := to, origin := Some(o))]
    requires Grows(b.frozenVisData, w'.frozenVisData, c + 1, w'.next)
    requires forall v :: v in w'.frozenVisData && v !in b.frozenVisData ==>
               w'.frozenVisData[v].owner == Ref(VisConfigs, c)
    requires CopiedTo(w.visData, w'.frozenVisData, Ref(VisConfigs, o), Ref(VisConfigs, c))
    ensures ConfigsCopied(w, w', to, done + {o})
  {
    forall e | e in w'.frozenVisConfigs && w'.frozenVisConfigs[e].owner == to
      ensures ConfigCopied(w, w', to, done + {o}, e)
    {
      if e != c {
        assert ConfigCopied(w, b, to, done, e);
        CopiedToStable(w.visData, b.frozenVisData, w'.frozenVisData,
                       Ref(VisConfigs, b.frozenVisConfigs[e].origin.value), Ref(VisConfigs, e));
      }
    }
    forall p | p in done + {o} ensures exists e :: IsDocCopyOf(w'.frozenVisConfigs, to, e, p) {
      if p == o {
        assert IsDocCopyOf(w'.frozenVisConfigs, to, c, o);
      } else {
        var e :| IsDocCopyOf(b.frozenVisConfigs, to, e, p);
        assert IsDocCopyOf(w'.frozenVisConfigs, to, e, p);
      }
    }
    forall p, e, g | IsDocCopyOf(w'.frozenVisConfigs, to, e, p) && IsDocCopyOf(w'.frozenVisConfigs, to, g, p)
      ensures e == g
    {
      assert e != c ==> ConfigCopied(w, b, to, done, e) && IsDocCopyOf(b.frozenVisConfigs, to, e, p);
      assert g != c ==> ConfigCopied(w, b, to, done, g) && IsDocCopyOf(b.frozenVisConfigs, to, g, p);
    }
  }

  lemma ConfigDocsIssued(w: World, b: World, w': World, to: Ref, o: Id, c: Id)
    requires o in w.visConfigs && DocsIssued(b) && to.id < b.next && c == b.next
    requires w'.frozenMetadata == b.frozenMetadata
    requires w'.frozenVisConfigs == b.frozenVisConfigs[c := w.visConfigs[o].(owner := to, origin := Some(o))]
    requires c + 1 <= w'.next && Grows(b.frozenVisData, w'.frozenVisData, c + 1, w'.next)
    requires forall v :: v in w'.frozenVisData && v !in b.frozenVisData ==>
               w'.frozenVisData[v].owner == Ref(VisConfigs, c)
    ensures DocsIssued(w')
  {
  }

  lemma ConfigDocsGrow(w: World, b: World, w': World, to: Ref, o: Id, c: Id)
    requires o in w.visConfigs && DocsGrow(w, b, to) && c == b.next && Issued(b.frozenVisConfigs, c)
    requires w'.frozenMetadata == b.frozenMetadata
    requires w'.frozenVisConfigs == b.frozenVisConfigs[c := w.visConfigs[o].(owner := to, origin := Some(o))]
    requires c + 1 <= w'.next && Grows(b.frozenVisData, w'.frozenVisData, c + 1, w'.next)
    requires forall v :: v in w'.frozenVisData && v !in b.frozenVisData ==>
               w'.frozenVisData[v].owner == Ref(VisConfigs, c)
    ensures DocsGrow(w, w', to)
  {
    ConfigDataGrow(w, b, w', to, c);
    GrowsTwice(w.frozenVisConfigs, b.frozenVisConfigs, w'.frozenVisConfigs, w.next, b.next, b.next, w'.next);
  }

  lemma ConfigDataGrow(w: World, b: World, w': World, to: Ref, c: Id)
    requires DocsGrow(w, b, to) && c == b.next && Issued(b.frozenVisConfigs, c) && c in w'.frozenVisConfigs
    requires forall e :: e in b.frozenVisConfigs ==> e in w'.frozenVisConfigs
    requires c + 1 <= w'.next && Grows(b.frozenVisData, w'.frozenVisData, c + 1, w'.next)
    requires forall v :: v in w'.frozenVisData && v !in b.frozenVisData ==>
               w'.frozenVisData[v].owner == Ref(VisConfigs, c)
    ensures Grows(w.frozenVisData, w'.frozenVisData, w.next, w'.next)
    ensures forall v :: v in w'.frozenVisData && v !in w.frozenVisData ==> NewConfig(w, w', w'.frozenVisData[v].owner)
  {
    assert c !in w.frozenVisConfigs;
    forall v | v in w'.frozenVisData && v !in w.frozenVisData ensures NewConfig(w, w', w'.frozenVisData[v].owner) {
      if v in b.frozenVisData {
        assert NewConfig(w, b, b.frozenVisData[v].owner);
      }
    }
  }

  lemma ConfigsAreCopied(w: World, w': World, from: Ref, to: Ref)
    requires Copied(w, w', from, to, set o | o in w.visConfigs && w.visConfigs[o].owner == from)
    ensures ResourceCopied(w, w', from, to)
  {
    var found := set o | o in w.visConfigs && w.visConfigs[o].owner == from;
    forall c | c in w'.frozenVisConfigs && w'.frozenVisConfigs[c].owner == to
      ensures IsDocCopy(w.visConfigs, w'.frozenVisConfigs, from, to, c)
      ensures CopiedTo(w.visData, w'.frozenVisData,
                       Ref(VisConfigs, w'.frozenVisConfigs[c].origin.value), Ref(VisConfigs, c))
    {
      assert ConfigCopied(w, w', to, found, c);
    }
    forall o | o in w.visConfigs && w.visConfigs[o].owner == from
      ensures exists c :: IsDocCopyOf(w'.frozenVisConfigs, to, c, o) {
      assert o in found;
    }
  }

  // ----- Files -----

  /** From `w` to `w'` only documents below new frozen files were added. */
  ghost predicate FileDocsGrow(w: World, w': World) {
    && Grows(w.frozenMetadata, w'.frozenMetadata, w.next, w'.next)
    && (forall m :: m in w'.frozenMetadata && m !in w.frozenMetadata ==> NewFile(w, w', w'.frozenMetadata[m].owner))
    && Grows(w.frozenVisConfigs, w'.frozenVisConfigs, w.next, w'.next)
    && (forall c :: c in w'.frozenVisConfigs && c !in w.frozenVisConfigs ==>
          NewFile(w, w', w'.frozenVisConfigs[c].owner))
    && Grows(w.frozenVisData, w'.frozenVisData, w.next, w'.next)
    && (forall v :: v in w'.frozenVisData && v !in w.frozenVisData ==> NewConfig(w, w', w'.frozenVisData[v].owner))
  }

  predicate NewFile(w: World, w': World, owner: Ref) {
    owner.collection == Files && owner.id in w'.frozenFiles && owner.id !in w.frozenFiles
  }

  /** Only files of the release and their documents were added. */
  ghost predicate FilesGrow(w: World, w': World, fd: Id) {
    && w.next <= w'.next
    && Grows(w.frozenFiles, w'.frozenFiles, w.next, w'.next)
    && (forall x :: x in w'.frozenFiles && x !in w.frozenFiles ==> w'.frozenFiles[x].dataset == fd)
    && FileDocsGrow(w, w')
  }

  /** The files in `done` are frozen, each with its documents; nothing else was added. */
  ghost predicate FilesFrozen(w: World, w': World, d: Id, fd: Id, done: set<Id>) {
    && FilesGrow(w, w', fd)
    && FilesCopied(w, d, fd, w.frozenFolders, w'.frozenFiles, done)
    && FilesHaveDocs(w, w', fd)
  }

  /** The folders, files and working documents the file loop reads stay put. */
  predicate SameTree(w: World, w': World) {
    w'.files == w.files && w'.frozenFolders == w.frozenFolders && WorkingDocs(w, w')
  }

  /** The map leads from every folder the freeze reaches, and from no other, to a copy of it. */
  ghost predicate Mapped(w: World, d: Id, fd: Id, memo: map<Id, Id>) {
    && (forall f :: f in memo <==> AboveDataset(w.folders, d, f))
    && (forall f :: f in memo ==> CopyOf(w.frozenFolders, fd, memo[f], f))
  }

  lemma NoFilesYet(w: World, d: Id, fd: Id)
    requires forall x :: x in w.frozenFiles ==> w.frozenFiles[x].dataset != fd
    ensures FilesFrozen(w, w, d, fd, {})
  {
  }

  lemma NothingBelowNew(w: World, w': World, x: Id)
    requires DocsIssued(w) && x == w.next && w' == w.(frozenFiles := w'.frozenFiles, next := x + 1)
    ensures DocsIssued(w') && NothingBelow(w', Ref(Files, x))
  {
  }

  lemma OneMoreFile(w: World, b: World, i: World, w': World, d: Id, fd: Id, done: set<Id>, o: Id, x: Id)
    requires DocsIssued(b) && FilesFrozen(w, b, d, fd, done) && Issued(w.frozenFiles, w.next) && x == b.next
    requires o in w.files && w.files[o].dataset == d && o !in done
    requires x in i.frozenFiles && i == b.(frozenFiles := b.frozenFiles[x := i.frozenFiles[x]], next := x + 1)
    requires i.frozenFiles[x].dataset == fd && i.frozenFiles[x].origin == Some(o)
    requires IsFileCopy(w, d, fd, w.frozenFolders, i.frozenFiles[x], o)
    requires DocsIssued(w') && DocsGrow(i, w', Ref(Files, x))
    requires ResourceCopied(w, w', Ref(Files, o), Ref(Files, x))
    requires w'.frozenFiles == i.frozenFiles
    ensures FilesFrozen(w, w', d, fd, done + {o})
  {
    OneMoreFileCopied(w, b, w', d, fd, done, o, x);
    FilesGrowByOne(w, b, i, w', fd, x);
    EveryFileHasItsDocs(w, b, i, w', fd, o, x);
  }

  lemma FilesGrowByOne(w: World, b: World, i: World, w': World, fd: Id, x: Id)
    requires FilesGrow(w, b, fd) && x == b.next && Issued(w.frozenFiles, w.next) && DocsIssued(b)
    requires x in i.frozenFiles && i == b.(frozenFiles := b.frozenFiles[x := i.frozenFiles[x]], next := x + 1)
    requires i.frozenFiles[x].dataset == fd && DocsGrow(i, w', Ref(Files, x)) && w'.frozenFiles == i.frozenFiles
    ensures FilesGrow(w, w', fd)
  {
    OneMoreFileGrows(w, b, i, w', x);
  }

  /** The documents of every frozen file of the release are the copies of its origin's documents. */
  ghost predicate FilesHaveDocs(w: World, w': World, fd: Id) {
    forall x :: x in w'.frozenFiles && w'.frozenFiles[x].dataset == fd ==>
      w'.frozenFiles[x].origin.Some? &&
      ResourceCopied(w, w', Ref(Files, w'.frozenFiles[x].origin.value), Ref(Files, x))
  }

  lemma EveryFileHasItsDocs(w: World, b: World, i: World, w': World, fd: Id, o: Id, x: Id)
    requires FilesHaveDocs(w, b, fd) && DocsIssued(b) && x == b.next
    requires x in i.frozenFiles && i == b.(frozenFiles := b.frozenFiles[x := i.frozenFiles[x]], next := x + 1)
    requires i.frozenFiles[x].origin == Some(o) && w'.frozenFiles == i.frozenFiles
    requires DocsGrow(i, w', Ref(Files, x)) && ResourceCopied(w, w', Ref(Files, o), Ref(Files, x))
    ensures FilesHaveDocs(w, w', fd)
  {
    forall y | y in w'.frozenFiles && w'.frozenFiles[y].dataset == fd
      ensures w'.frozenFiles[y].origin.Some?
      ensures ResourceCopied(w, w', Ref(Files, w'.frozenFiles[y].origin.value), Ref(Files, y))
    {
      if y != x {
        OtherFileStays(w, b, i, w', Ref(Files, b.frozenFiles[y].origin.value), Ref(Files, y), Ref(Files, x));
      }
    }
  }

  /** The documents copied below one file do not disturb those below another. */
  lemma OtherFileStays(w: World, b: World, i: World, w': World, from: Ref, other: Ref, to: Ref)
    requires ResourceCopied(w, b, from, other) && other != to && other.collection != VisConfigs
    requires i == b.(frozenFiles := i.frozenFiles, next := i.next)
    requires DocsIssued(i) && DocsGrow(i, w', to)
    ensures ResourceCopied(w, w', from, other)
  {
    assert ResourceCopied(w, i, from, other);
    ResourceCopiedStable(w, i, w', from, other, to);
  }

  lemma OneMoreFileCopied(w: World, b: World, w': World, d: Id, fd: Id, done: set<Id>, o: Id, x: Id)
    requires FilesCopied(w, d, fd, w.frozenFolders, b.frozenFiles, done) && o !in done && x !in b.frozenFiles
    requires x in w'.frozenFiles && w'.frozenFiles == b.frozenFiles[x := w'.frozenFiles[x]]
    requires w'.frozenFiles[x].origin == Some(o) && IsFileCopy(w, d, fd, w.frozenFolders, w'.frozenFiles[x], o)
    ensures FilesCopied(w, d, fd, w.frozenFolders, w'.frozenFiles, done + {o})
  {
    forall p | p in done + {o} ensures exists y :: FileCopyOf(w'.frozenFiles, fd, y, p) {
      if p == o {
        assert FileCopyOf(w'.frozenFiles, fd, x, o);
      } else {
        var y :| FileCopyOf(b.frozenFiles, fd, y, p);
        assert FileCopyOf(w'.frozenFiles, fd, y, p);
      }
    }
    forall p, y, z | FileCopyOf(w'.frozenFiles, fd, y, p) && FileCopyOf(w'.frozenFiles, fd, z, p) ensures y == z {
      assert y != x ==> FileCopyOf(b.frozenFiles, fd, y, p);
      assert z != x ==> FileCopyOf(b.frozenFiles, fd, z, p);
    }
  }

  lemma OneMoreFileGrows(w: World, b: World, i: World, w': World, x: Id)
    requires FileDocsGrow(w, b) && w.next <= b.next && x == b.next && Issued(w.frozenFiles, w.next)
    requires x in i.frozenFiles && i == b.(frozenFiles := b.frozenFiles[x := i.frozenFiles[x]], next := x + 1)
    requires DocsIssued(b) && DocsGrow(i, w', Ref(Files, x)) && w'.frozenFiles == i.frozenFiles
    ensures FileDocsGrow(w, w')
  {
    OneMoreFilesDocs(w, b, i, w', x);
    OneMoreFilesData(w, b, i, w', x);
    hide Grows;
    GrowsTwice(w.frozenMetadata, b.frozenMetadata, w'.frozenMetadata, w.next, x, x + 1, w'.next);
    GrowsTwice(w.frozenVisConfigs, b.frozenVisConfigs, w'.frozenVisConfigs, w.next, x, x + 1, w'.next);
    GrowsTwice(w.frozenVisData, b.frozenVisData, w'.frozenVisData, w.next, x, x + 1, w'.next);
  }

  lemma OneMoreFilesDocs(w: World, b: World, i: World, w': World, x: Id)
    requires FileDocsGrow(w, b) && w.next <= b.next && x == b.next && Issued(w.frozenFiles, w.next)
    requires x in i.frozenFiles && i == b.(frozenFiles := b.frozenFiles[x := i.frozenFiles[x]], next := x + 1)
    requires DocsGrow(i, w', Ref(Files, x)) && w'.frozenFiles == i.frozenFiles
    ensures forall m :: m in w'.frozenMetadata && m !in w.frozenMetadata ==> NewFile(w, w', w'.frozenMetadata[m].owner)
    ensures forall c :: c in w'.frozenVisConfigs && c !in w.frozenVisConfigs ==>
              NewFile(w, w', w'.frozenVisConfigs[c].owner)
  {
    forall m | m in w'.frozenMetadata && m !in w.frozenMetadata ensures NewFile(w, w', w'.frozenMetadata[m].owner) {
      assert m in b.frozenMetadata ==> NewFile(w, b, b.frozenMetadata[m].owner);
    }
    forall c | c in w'.frozenVisConfigs && c !in w.frozenVisConfigs
      ensures NewFile(w, w', w'.frozenVisConfigs[c].owner) {
      assert c in b.frozenVisConfigs ==> NewFile(w, b, b.frozenVisConfigs[c].owner);
    }
  }

  lemma OneMoreFilesData(w: World, b: World, i: World, w': World, x: Id)
    requires FileDocsGrow(w, b) && w.next <= b.next && x == b.next
    requires i == b.(frozenFiles := i.frozenFiles, next := x + 1) && DocsIssued(b) && DocsGrow(i, w', Ref(Files, x))
    ensures forall v :: v in w'.frozenVisData && v !in w.frozenVisData ==> NewConfig(w, w', w'.frozenVisData[v].owner)
  {
    forall v | v in w'.frozenVisData && v !in w.frozenVisData ensures NewConfig(w, w', w'.frozenVisData[v].owner) {
      if v in b.frozenVisData {
        assert NewConfig(w, b, b.frozenVisData[v].owner);
      } else {
        assert NewConfig(i, w', w'.frozenVisData[v].owner);
      }
    }
  }

  // ----- The whole freeze -----

  /** What the freeze of `d` relies on: a forest to copy, and ids no document has yet. */
  ghost predicate Freezable(w: World, d: Id) {
    && DocsIssued(w) && Issued(w.releases, w.next) && Issued(w.frozenFolders, w.next) && Issued(w.frozenFiles, w.next)
    && Acyclic(Reached(w.folders, d))
    && (forall k :: k in w.frozenFolders ==> w.frozenFolders[k].dataset in w.releases)
    && (forall x :: x in w.frozenFiles ==> w.frozenFiles[x].dataset in w.releases)
  }

  lemma OrderlyIsFreezable(w: World, d: Id)
    requires Orderly(w) && Acyclic(Reached(w.folders, d))
    ensures Freezable(w, d)
  {
  }

  lemma NothingBelowFresh(w: World, d: Id, w': World)
    requires Freezable(w, d) && w' == w.(releases := w'.releases, next := w.next + 1)
    ensures DocsIssued(w') && NothingBelow(w', Ref(Datasets, w.next))
  {
  }

  /** The frozen folders are what the loop makes of some listing of the dataset's folders. */
  ghost predicate FromListing(fs: Folders, frozen: Folders, d: Id, fd: Id, frozen': Folders) {
    Acyclic(Reached(fs, d)) &&
    exists order, base :: Lists(order, FoldersOf(fs, {d})) && LoopMakes(Reached(fs, d), frozen, order, base, fd, frozen')
  }

  ghost predicate LoopMakes(fs: Folders, frozen: Folders, order: seq<Id>, base: Id, fd: Id, frozen': Folders)
    requires Acyclic(fs)
  {
    (forall f :: f in order ==> Rooted(fs, f)) &&
    FreshStart(fd, Freezing(frozen, base, map[])) &&
    frozen' == FreezeListed(fs, order, fd, Freezing(frozen, base, map[])).frozen
  }

  /** The folder loop, as far as it went. */
  lemma FoldersAdded(w: World, w1: World, w2: World, d: Id, fd: Id, order: seq<Id>, memo: map<Id, Id>)
    requires Freezable(w, d) && fd == w.next && forall f :: f in order ==> Rooted(Reached(w.folders, d), f)
    requires w1.frozenFolders == w.frozenFolders && w.next < w1.next
    requires Freezing(w2.frozenFolders, w2.next, memo) ==
             FreezeListed(Reached(w.folders, d), order, fd, Freezing(w1.frozenFolders, w1.next, map[]))
    ensures FreshStart(fd, Freezing(w1.frozenFolders, w1.next, map[]))
    ensures w1.next <= w2.next && Grows(w.frozenFolders, w2.frozenFolders, w1.next, w2.next)
    ensures forall k :: k in w2.frozenFolders && k !in w.frozenFolders ==> w2.frozenFolders[k].dataset == fd
  {
    var s := Freezing(w1.frozenFolders, w1.next, map[]);
    assert FreshStart(fd, s) by {
      assert forall k :: k in w.frozenFolders ==> w.frozenFolders[k].dataset in w.releases;
    }
    FreezeListedIsFaithful(Reached(w.folders, d), order, fd, s);
    NewFoldersInRelease(Reached(w.folders, d), order, fd, s);
  }

  /** The whole folder loop, seen from the dataset. */
  lemma FoldersFrozen(w: World, w1: World, w2: World, d: Id, fd: Id, order: seq<Id>, memo: map<Id, Id>)
    requires Freezable(w, d) && fd == w.next && Lists(order, FoldersOf(w.folders, {d}))
    requires forall f :: f in order ==> Rooted(Reached(w.folders, d), f)
    requires w1.frozenFolders == w.frozenFolders && w.next < w1.next
    requires Freezing(w2.frozenFolders, w2.next, memo) ==
             FreezeListed(Reached(w.folders, d), order, fd, Freezing(w1.frozenFolders, w1.next, map[]))
    ensures w1.next <= w2.next && Grows(w.frozenFolders, w2.frozenFolders, w1.next, w2.next)
    ensures forall k :: k in w2.frozenFolders && k !in w.frozenFolders ==> w2.frozenFolders[k].dataset == fd
    ensures FoldersCopied(w, d, fd, w2.frozenFolders)
    ensures forall f :: f in memo <==> AboveDataset(w.folders, d, f)
    ensures forall f :: f in memo ==> CopyOf(w2.frozenFolders, fd, memo[f], f)
    ensures FromListing(w.folders, w.frozenFolders, d, fd, w2.frozenFolders)
  {
    FoldersAdded(w, w1, w2, d, fd, order, memo);
    ListedFolders(w, d, order);
    assert LoopMakes(Reached(w.folders, d), w.frozenFolders, order, w1.next, fd, w2.frozenFolders);
    DatasetFoldersCopied(w, d, fd, order, Freezing(w1.frozenFolders, w1.next, map[]));
  }

  lemma ListedFolders(w: World, d: Id, order: seq<Id>)
    requires Lists(order, FoldersOf(w.folders, {d}))
    ensures forall f :: f in order <==> f in w.folders && w.folders[f].dataset == d
  {
    assert forall f :: f in order <==> f in FoldersOf(w.folders, {d});
  }

  lemma DatasetFoldersCopied(w: World, d: Id, fd: Id, order: seq<Id>, s: Freezing)
    requires Acyclic(Reached(w.folders, d)) && FreshStart(fd, s)
    requires forall f :: f in order <==> f in w.folders && w.folders[f].dataset == d
    requires forall f :: f in order ==> Rooted(Reached(w.folders, d), f)
    ensures var t := FreezeListed(Reached(w.folders, d), order, fd, s);
            && FoldersCopied(w, d, fd, t.frozen)
            && (forall f :: f in t.memo <==> AboveDataset(w.folders, d, f))
            && (forall f :: f in t.memo ==> CopyOf(t.frozen, fd, t.memo[f], f))
  {
    var gs := Reached(w.folders, d);
    var t := FreezeListed(gs, order, fd, s);
    FreezeListedIsFaithful(gs, order, fd, s);
    forall f ensures f in t.memo <==> AboveDataset(w.folders, d, f) {
      FreezeListedReaches(gs, order, fd, s, f);
      AboveListedIsAboveDataset(w.folders, order, d, f);
    }
    hide FreezeListed, AboveListed, Rooted;
    FaithfulCopies(w, d, fd, t);
  }

  lemma FaithfulCopies(w: World, d: Id, fd: Id, t: Freezing)
    requires Faithful(Reached(w.folders, d), fd, t) && forall f :: f in t.memo <==> AboveDataset(w.folders, d, f)
    ensures FoldersCopied(w, d, fd, t.frozen)
    ensures forall f :: f in t.memo ==> CopyOf(t.frozen, fd, t.memo[f], f)
  {
    AboveIsUpClosed(w.folders, FoldersOf(w.folders, {d}));
    forall k | k in t.frozen && t.frozen[k].dataset == fd
      ensures IsCopy(w.folders, fd, t.frozen, k) && AboveDataset(w.folders, d, t.frozen[k].origin.value) {
      assert IsCopy(Reached(w.folders, d), fd, t.frozen, k);
    }
  }

  /** The loop adds folders of the release only, copied from the dataset only. */
  lemma {:induction false} NewFoldersInRelease(fs: Folders, order: seq<Id>, fd: Id, s: Freezing)
    requires Acyclic(fs) && (forall f :: f in order ==> Rooted(fs, f))
    ensures forall k :: k in FreezeListed(fs, order, fd, s).frozen && k !in s.frozen ==>
              FreezeListed(fs, order, fd, s).frozen[k].dataset == fd
  {
    if order != [] {
      NewFoldersInRelease(fs, order[..|order| - 1], fd, s);
      NewFolderInRelease(fs, order[|order| - 1], fd, FreezeListed(fs, order[..|order| - 1], fd, s));
    }
  }

  lemma {:induction false} NewFolderInRelease(fs: Folders, f: Id, fd: Id, s: Freezing)
    requires Acyclic(fs) && Rooted(fs, f)
    ensures forall k :: k in FolderFreeze.FreezeFolder(fs, f, fd, s).frozen ==>
              (k in s.frozen && FolderFreeze.FreezeFolder(fs, f, fd, s).frozen[k] == s.frozen[k]) ||
              FolderFreeze.FreezeFolder(fs, f, fd, s).frozen[k].dataset == fd
    decreases RankOf(fs)[f]
  {
    RootedUnfolds(fs, f);
    if fs[f].parent.Some? {
      if fs[f].parent.value !in s.memo {
        NewFolderInRelease(fs, fs[f].parent.value, fd, s);
      }
    }
  }

  lemma GrowsTwice<T(!new)>(m: map<Id, T>, m1: map<Id, T>, m2: map<Id, T>, lo: Id, mid: Id, from: Id, hi: Id)
    requires Grows(m, m1, lo, mid) && Grows(m1, m2, from, hi) && lo <= mid <= from && mid <= hi
    ensures Grows(m, m2, lo, hi)
  {
  }

  /** The dataset's documents, then the files'. */
  lemma DocsAdded(w0: World, w1: World, w2: World, w3: World, fd: Id)
    requires DocsGrow(w0, w1, Ref(Datasets, fd)) && FileDocsGrow(w2, w3)
    requires w2 == w1.(frozenFolders := w2.frozenFolders, next := w2.next)
    requires forall x :: x in w3.frozenFiles && x !in w2.frozenFiles ==> w3.frozenFiles[x].dataset == fd
    ensures forall m :: m in w3.frozenMetadata && m !in w0.frozenMetadata ==>
              InRelease(w3, fd, w3.frozenMetadata[m].owner)
    ensures forall c :: c in w3.frozenVisConfigs && c !in w0.frozenVisConfigs ==>
              InRelease(w3, fd, w3.frozenVisConfigs[c].owner)
  {
    forall m | m in w3.frozenMetadata && m !in w0.frozenMetadata ensures InRelease(w3, fd, w3.frozenMetadata[m].owner) {
      assert m !in w2.frozenMetadata ==> NewFile(w2, w3, w3.frozenMetadata[m].owner);
    }
    forall c | c in w3.frozenVisConfigs && c !in w0.frozenVisConfigs
      ensures InRelease(w3, fd, w3.frozenVisConfigs[c].owner) {
      assert c !in w2.frozenVisConfigs ==> NewFile(w2, w3, w3.frozenVisConfigs[c].owner);
    }
  }

  lemma VisDataAdded(w: World, w0: World, w1: World, w2: World, w3: World, to: Ref)
    requires w0 == w.(releases := w0.releases, next := w0.next) && DocsGrow(w0, w1, to) && FileDocsGrow(w2, w3)
    requires w2 == w1.(frozenFolders := w2.frozenFolders, next := w2.next)
    ensures forall v :: v in w3.frozenVisData && v !in w.frozenVisData ==> NewConfig(w, w3, w3.frozenVisData[v].owner)
  {
    forall v | v in w3.frozenVisData && v !in w.frozenVisData ensures NewConfig(w, w3, w3.frozenVisData[v].owner) {
      if v in w2.frozenVisData {
        assert NewConfig(w0, w1, w1.frozenVisData[v].owner);
      } else {
        assert NewConfig(w2, w3, w3.frozenVisData[v].owner);
      }
    }
  }

  /** Freezing the files adds nothing below the dataset's own copies. */
  lemma DatasetDocsStay(w: World, w1: World, w3: World, d: Id, fd: Id)
    requires ResourceCopied(w, w1, Ref(Datasets, d), Ref(Datasets, fd)) && DocsIssued(w1)
    requires forall m :: m in w1.frozenMetadata ==> m in w3.frozenMetadata && w3.frozenMetadata[m] == w1.frozenMetadata[m]
    requires forall m :: m in w3.frozenMetadata && m !in w1.frozenMetadata ==> w3.frozenMetadata[m].owner.collection == Files
    requires forall c :: c in w1.frozenVisConfigs ==>
               c in w3.frozenVisConfigs && w3.frozenVisConfigs[c] == w1.frozenVisConfigs[c]
    requires forall c :: c in w3.frozenVisConfigs && c !in w1.frozenVisConfigs ==>
               w3.frozenVisConfigs[c].owner.collection == Files
    requires forall v :: v in w1.frozenVisData ==> v in w3.frozenVisData && w3.frozenVisData[v] == w1.frozenVisData[v]
    requires forall v :: v in w3.frozenVisData && v !in w1.frozenVisData ==> NewConfig(w1, w3, w3.frozenVisData[v].owner)
    ensures ResourceCopied(w, w3, Ref(Datasets, d), Ref(Datasets, fd))
  {
    var from, to := Ref(Datasets, d), Ref(Datasets, fd);
    CopiedToStable(w.metadata, w1.frozenMetadata, w3.frozenMetadata, from, to);
    CopiedToStable(w.visConfigs, w1.frozenVisConfigs, w3.frozenVisConfigs, from, to);
    forall c | c in w3.frozenVisConfigs && w3.frozenVisConfigs[c].owner == to
      ensures w3.frozenVisConfigs[c].origin.Some?
      ensures CopiedTo(w.visData, w3.frozenVisData, Ref(VisConfigs, w3.frozenVisConfigs[c].origin.value), Ref(VisConfigs, c))
    {
      assert c in w1.frozenVisConfigs;
      CopiedToStable(w.visData, w1.frozenVisData, w3.frozenVisData,
                     Ref(VisConfigs, w1.frozenVisConfigs[c].origin.value), Ref(VisConfigs, c));
    }
  }

  lemma ReadyForFiles(w: World, w1: World, w2: World, d: Id, fd: Id, memo: map<Id, Id>)
    requires Freezable(w, d) && fd == w.next < w1.next <= w2.next && DocsIssued(w1)
    requires w2 == w1.(frozenFolders := w2.frozenFolders, next := w2.next)
    requires w1.frozenFiles == w.frozenFiles && w1.folders == w.folders
    requires forall f :: f in memo <==> AboveDataset(w.folders, d, f)
    requires forall f :: f in memo ==> CopyOf(w2.frozenFolders, fd, memo[f], f)
    ensures DocsIssued(w2) && Issued(w2.frozenFiles, w2.next) && Mapped(w2, d, fd, memo)
    ensures forall x :: x in w2.frozenFiles ==> w2.frozenFiles[x].dataset != fd
  {
  }

  /** The release record is in (`w0`) and the dataset's documents are copied (`w1`). */
  ghost predicate DatasetFrozen(w: World, w0: World, w1: World, d: Id, fd: Id) {
    && fd == w.next && w0 == w.(releases := w0.releases, next := fd + 1)
    && DocsIssued(w1) && DocsGrow(w0, w1, Ref(Datasets, fd)) && ResourceCopied(w0, w1, Ref(Datasets, d), Ref(Datasets, fd))
    && w1.frozenFiles == w.frozenFiles && w1.frozenFolders == w.frozenFolders
    && w1.datasets == w.datasets && w1.folders == w.folders && w1.files == w.files && WorkingDocs(w, w1)
  }

  /** Then the folders (`w2`). */
  ghost predicate TreeFrozen(w: World, w0: World, w1: World, w2: World, d: Id, fd: Id) {
    && DatasetFrozen(w, w0, w1, d, fd)
    && w2 == w1.(frozenFolders := w2.frozenFolders, next := w2.next)
    && w1.next <= w2.next && Grows(w.frozenFolders, w2.frozenFolders, w1.next, w2.next)
    && (forall k :: k in w2.frozenFolders && k !in w.frozenFolders ==> w2.frozenFolders[k].dataset == fd)
    && FoldersCopied(w, d, fd, w2.frozenFolders)
    && FromListing(w.folders, w.frozenFolders, d, fd, w2.frozenFolders)
  }

  /** ... and what the files need is there. */
  ghost predicate TreeReady(w: World, w0: World, w1: World, w2: World, d: Id, fd: Id, memo: map<Id, Id>) {
    && TreeFrozen(w, w0, w1, w2, d, fd)
    && DocsIssued(w2) && Issued(w2.frozenFiles, w2.next) && Mapped(w2, d, fd, memo)
    && (forall x :: x in w2.frozenFiles ==> w2.frozenFiles[x].dataset != fd)
  }

  /** The folder loop went through, or broke off. */
  lemma TreeIsFrozen(w: World, w0: World, w1: World, w2: World, d: Id, fd: Id, order: seq<Id>, done: nat, memo: map<Id, Id>)
    requires Freezable(w, d) && DatasetFrozen(w, w0, w1, d, fd) && w2 == w1.(frozenFolders := w2.frozenFolders, next := w2.next)
    requires Lists(order, FoldersOf(w.folders, {d})) && done <= |order|
    requires done < |order| ==> !Rooted(Reached(w.folders, d), order[done])
    requires FrozenUpTo(Reached(w.folders, d), order, done, fd, Freezing(w1.frozenFolders, w1.next, map[]),
                        Freezing(w2.frozenFolders, w2.next, memo))
    ensures done == |order| <==> Closed(Reached(w.folders, d))
    ensures done == |order| ==> TreeReady(w, w0, w1, w2, d, fd, memo)
    ensures done < |order| ==> ContentsBroken(w, w2, d, fd)
  {
    hide TreeReady, ContentsBroken;
    if done == |order| {
      assert order[..done] == order;
      TreeIsWhole(w, w0, w1, w2, d, fd, order, memo);
    } else {
      TreeIsBroken(w, w0, w1, w2, d, fd, order, done, memo);
    }
  }

  lemma TreeIsWhole(w: World, w0: World, w1: World, w2: World, d: Id, fd: Id, order: seq<Id>, memo: map<Id, Id>)
    requires Freezable(w, d) && DatasetFrozen(w, w0, w1, d, fd) && w2 == w1.(frozenFolders := w2.frozenFolders, next := w2.next)
    requires Lists(order, FoldersOf(w.folders, {d})) && forall f :: f in order ==> Rooted(Reached(w.folders, d), f)
    requires Freezing(w2.frozenFolders, w2.next, memo) ==
             FreezeListed(Reached(w.folders, d), order, fd, Freezing(w1.frozenFolders, w1.next, map[]))
    ensures TreeReady(w, w0, w1, w2, d, fd, memo) && Closed(Reached(w.folders, d))
  {
    FoldersFrozen(w, w1, w2, d, fd, order, memo);
    ReadyForFiles(w, w1, w2, d, fd, memo);
    AllRootedIffClosed(w.folders, d);
  }

  /** The contents of a freeze that ended with an exception: documents and some folders. */
  ghost predicate ContentsBroken(w: World, w': World, d: Id, fd: Id) {
    && fd < w'.next && OnlyAdds(w, fd, w') && w'.frozenFiles == w.frozenFiles
    && ResourceCopied(w, w', Ref(Datasets, d), Ref(Datasets, fd))
    && BrokenOff(w.folders, d, w.frozenFolders, fd, w'.frozenFolders)
  }

  lemma TreeIsBroken(w: World, w0: World, w1: World, w2: World, d: Id, fd: Id, order: seq<Id>, done: nat, memo: map<Id, Id>)
    requires Freezable(w, d) && DatasetFrozen(w, w0, w1, d, fd) && w2 == w1.(frozenFolders := w2.frozenFolders, next := w2.next)
    requires Lists(order, FoldersOf(w.folders, {d})) && done < |order| && !Rooted(Reached(w.folders, d), order[done])
    requires forall f :: f in order[..done] ==> Rooted(Reached(w.folders, d), f)
    requires Freezing(w2.frozenFolders, w2.next, memo) ==
             FreezeListed(Reached(w.folders, d), order[..done], fd, Freezing(w1.frozenFolders, w1.next, map[]))
    ensures ContentsBroken(w, w2, d, fd) && !Closed(Reached(w.folders, d))
  {
    FoldersAdded(w, w1, w2, d, fd, order[..done], memo);
    BrokeInListing(w, w1, w2, d, fd, order, done);
    NoFilesAdded(w2, fd);
    StagesAdd(w, w0, w1, w2, w2, fd);
    SameSource(w0, w, w1, Ref(Datasets, d), Ref(Datasets, fd));
    SameDocsCopied(w, w1, w2, Ref(Datasets, d), Ref(Datasets, fd));
  }

  lemma BrokeInListing(w: World, w1: World, w2: World, d: Id, fd: Id, order: seq<Id>, done: nat)
    requires Acyclic(Reached(w.folders, d)) && w1.frozenFolders == w.frozenFolders
    requires Lists(order, FoldersOf(w.folders, {d})) && done < |order| && !Rooted(Reached(w.folders, d), order[done])
    requires forall f :: f in order[..done] ==> Rooted(Reached(w.folders, d), f)
    requires FreshStart(fd, Freezing(w.frozenFolders, w1.next, map[]))
    requires w2.frozenFolders ==
             FreezeListed(Reached(w.folders, d), order[..done], fd, Freezing(w.frozenFolders, w1.next, map[])).frozen
    ensures BrokenOff(w.folders, d, w.frozenFolders, fd, w2.frozenFolders) && !Closed(Reached(w.folders, d))
  {
    AllRootedIffClosed(w.folders, d);
    assert order[done] in order;
    hide Reached, Rooted, FreezeListed, FoldersOf, Closed;
    assert BrokeAt(Reached(w.folders, d), w.frozenFolders, order, done, w1.next, fd, w2.frozenFolders);
  }

  lemma NoFilesAdded(w: World, fd: Id)
    ensures FilesGrow(w, w, fd)
  {
  }

  lemma SameDocsCopied(w: World, v: World, v': World, from: Ref, to: Ref)
    requires ResourceCopied(w, v, from, to)
    requires v'.frozenMetadata == v.frozenMetadata && v'.frozenVisConfigs == v.frozenVisConfigs
    requires v'.frozenVisData == v.frozenVisData
    ensures ResourceCopied(w, v', from, to)
  {
  }

  /** Then the files (`w3`). */
  ghost predicate FreezeStages(w: World, w0: World, w1: World, w2: World, w3: World, d: Id, fd: Id) {
    && TreeFrozen(w, w0, w1, w2, d, fd)
    && FilesFrozen(w2, w3, d, fd, FilesOf(w2.files, {d})) && w3.frozenFolders == w2.frozenFolders
  }

  lemma StagesAdd(w: World, w0: World, w1: World, w2: World, w3: World, fd: Id)
    requires fd == w.next && w0 == w.(releases := w0.releases, next := fd + 1)
    requires DocsGrow(w0, w1, Ref(Datasets, fd)) && w1.frozenFiles == w.frozenFiles
    requires w2 == w1.(frozenFolders := w2.frozenFolders, next := w2.next) && w1.next <= w2.next
    requires Grows(w.frozenFolders, w2.frozenFolders, w1.next, w2.next)
    requires forall k :: k in w2.frozenFolders && k !in w.frozenFolders ==> w2.frozenFolders[k].dataset == fd
    requires FilesGrow(w2, w3, fd) && w3.frozenFolders == w2.frozenFolders
    ensures OnlyAdds(w, fd, w3)
  {
    hide DocsGrow, FileDocsGrow, NewConfig, InRelease, Grows;
    TreeAdds(w, w0, w1, w2, w3, fd);
    DocsGrowThrough(w, w0, w1, w2, w3, fd);
    DocsAdded(w0, w1, w2, w3, fd);
    VisDataAdded(w, w0, w1, w2, w3, Ref(Datasets, fd));
  }

  lemma TreeAdds(w: World, w0: World, w1: World, w2: World, w3: World, fd: Id)
    requires fd == w.next && w0 == w.(releases := w0.releases, next := fd + 1)
    requires DocsGrow(w0, w1, Ref(Datasets, fd)) && w1.frozenFiles == w.frozenFiles
    requires w2 == w1.(frozenFolders := w2.frozenFolders, next := w2.next) && w1.next <= w2.next
    requires Grows(w.frozenFolders, w2.frozenFolders, w1.next, w2.next)
    requires FilesGrow(w2, w3, fd) && w3.frozenFolders == w2.frozenFolders
    ensures w2.next <= w3.next
    ensures Grows(w.frozenFolders, w3.frozenFolders, w.next + 1, w3.next)
    ensures Grows(w.frozenFiles, w3.frozenFiles, w.next + 1, w3.next)
    ensures forall x :: x in w3.frozenFiles && x !in w2.frozenFiles ==> w3.frozenFiles[x].dataset == fd
    ensures forall x :: x in w3.frozenFiles && x !in w.frozenFiles ==> w3.frozenFiles[x].dataset == fd
  {
  }

  lemma DocsGrowThrough(w: World, w0: World, w1: World, w2: World, w3: World, fd: Id)
    requires fd == w.next && w0 == w.(releases := w0.releases, next := fd + 1)
    requires DocsGrow(w0, w1, Ref(Datasets, fd)) && FileDocsGrow(w2, w3) && w2.next <= w3.next
    requires w2 == w1.(frozenFolders := w2.frozenFolders, next := w2.next) && w1.next <= w2.next
    ensures Grows(w.frozenMetadata, w3.frozenMetadata, w.next + 1, w3.next)
    ensures Grows(w.frozenVisConfigs, w3.frozenVisConfigs, w.next + 1, w3.next)
    ensures Grows(w.frozenVisData, w3.frozenVisData, w.next + 1, w3.next)
  {
    GrowsTwice(w.frozenMetadata, w1.frozenMetadata, w3.frozenMetadata, fd + 1, w1.next, w2.next, w3.next);
    GrowsTwice(w.frozenVisConfigs, w1.frozenVisConfigs, w3.frozenVisConfigs, fd + 1, w1.next, w2.next, w3.next);
    GrowsTwice(w.frozenVisData, w1.frozenVisData, w3.frozenVisData, fd + 1, w1.next, w2.next, w3.next);
  }

  lemma StagesDone(w: World, w0: World, w1: World, w2: World, w3: World, d: Id, fd: Id)
    requires FreezeStages(w, w0, w1, w2, w3, d, fd)
    ensures ContentsFrozen(w, w3, d, fd)
  {
    StagesAdd(w, w0, w1, w2, w3, fd);
    StagesCopy(w, w0, w1, w2, w3, d, fd);
  }

  /** The dataset's contents are in release `fd`; only the owner's authorization is missing. */
  ghost predicate ContentsFrozen(w: World, w': World, d: Id, fd: Id) {
    && fd < w'.next && OnlyAdds(w, fd, w') && Snapshot(w, d, fd, w')
    && FromListing(w.folders, w.frozenFolders, d, fd, w'.frozenFolders)
  }

  /** Only the release record is new besides what the freeze copies. */
  predicate ReleaseBegun(w: World, w': World, d: Id, n: nat) {
    && d in w.datasets && WorkingSame(w, w') && w'.objects == w.objects && w'.auths == w.auths
    && w'.releases == w.releases[w.next := Release(w.datasets[d].name, d, n, false)]
  }

  lemma StagesCopy(w: World, w0: World, w1: World, w2: World, w3: World, d: Id, fd: Id)
    requires FreezeStages(w, w0, w1, w2, w3, d, fd)
    ensures Snapshot(w, d, fd, w3)
  {
    StagesKeepDatasetDocs(w, w0, w1, w2, w3, d, fd);
    SameFilesCopied(w2, w, d, fd, w2.frozenFolders, w3.frozenFiles, FilesOf(w.files, {d}));
    SameFilesHaveDocs(w2, w, w3, fd);
  }

  lemma SameFilesCopied(w: World, v: World, d: Id, fd: Id, frozenFolders: Folders, frozen: map<Id, File>, some: set<Id>)
    requires FilesCopied(w, d, fd, frozenFolders, frozen, some) && v.files == w.files && v.folders == w.folders
    ensures FilesCopied(v, d, fd, frozenFolders, frozen, some)
  {
  }

  lemma SameFilesHaveDocs(w: World, v: World, w': World, fd: Id)
    requires FilesHaveDocs(w, w', fd) && WorkingDocs(v, w)
    ensures FilesHaveDocs(v, w', fd)
  {
    forall x | x in w'.frozenFiles && w'.frozenFiles[x].dataset == fd
      ensures ResourceCopied(v, w', Ref(Files, w'.frozenFiles[x].origin.value), Ref(Files, x))
    {
      SameSource(w, v, w', Ref(Files, w'.frozenFiles[x].origin.value), Ref(Files, x));
    }
  }

  lemma SameSource(w: World, v: World, w': World, from: Ref, to: Ref)
    requires WorkingDocs(v, w) && ResourceCopied(w, w', from, to)
    ensures ResourceCopied(v, w', from, to)
  {
  }

  lemma StagesKeepDatasetDocs(w: World, w0: World, w1: World, w2: World, w3: World, d: Id, fd: Id)
    requires FreezeStages(w, w0, w1, w2, w3, d, fd)
    ensures ResourceCopied(w, w3, Ref(Datasets, d), Ref(Datasets, fd))
  {
    SameSource(w0, w, w1, Ref(Datasets, d), Ref(Datasets, fd));
    NewFilesOnly(w2, w3);
    DatasetDocsStay(w, w1, w3, d, fd);
  }

  lemma NewFilesOnly(w: World, w': World)
    requires FileDocsGrow(w, w')
    ensures forall m :: m in w'.frozenMetadata && m !in w.frozenMetadata ==>
              w'.frozenMetadata[m].owner.collection == Files
    ensures forall c :: c in w'.frozenVisConfigs && c !in w.frozenVisConfigs ==>
              w'.frozenVisConfigs[c].owner.collection == Files
  {
    forall m | m in w'.frozenMetadata && m !in w.frozenMetadata ensures w'.frozenMetadata[m].owner.collection == Files {
      assert NewFile(w, w', w'.frozenMetadata[m].owner);
    }
    forall c | c in w'.frozenVisConfigs && c !in w.frozenVisConfigs
      ensures w'.frozenVisConfigs[c].owner.collection == Files {
      assert NewFile(w, w', w'.frozenVisConfigs[c].owner);
    }
  }

  /** With the authorization inserted, the freeze is complete. */
  lemma FreezeDone(w: World, w3: World, w': World, d: Id, n: nat)
    requires IsNextNumber(w.releases, d, n) && ReleaseBegun(w, w3, d, n) && ContentsFrozen(w, w3, d, w.next)
    requires w' == w3.(auths := w.auths[w3.next := Authorization(w.next, Owner, [], [])], next := w3.next + 1)
    ensures Froze(w, d, n, w')
  {
    hide OnlyAdds, Snapshot, FromListing;
    SameFrozenOnlyAdds(w, w3, w', w.next);
    SameFrozenSameCopies(w, w3, w', d, w.next);
  }

  lemma SameFrozenOnlyAdds(w: World, v: World, v': World, fd: Id)
    requires OnlyAdds(w, fd, v)
    requires v' == v.(auths := v'.auths, next := v'.next) && v.next <= v'.next
    ensures OnlyAdds(w, fd, v')
  {
    SameReleaseOwners(v, v', fd);
    assert forall owner :: NewConfig(w, v, owner) <==> NewConfig(w, v', owner);
  }

  lemma FreezeBroken(w: World, w': World, d: Id, n: nat)
    requires IsNextNumber(w.releases, d, n) && ReleaseBegun(w, w', d, n) && ContentsBroken(w, w', d, w.next)
    ensures FreezeBroke(w, d, n, w')
  {
    hide OnlyAdds, ResourceCopied, BrokenOff;
  }

  lemma SameReleaseOwners(w: World, w': World, fd: Id)
    requires w'.frozenFiles == w.frozenFiles
    ensures forall owner :: InRelease(w', fd, owner) <==> InRelease(w, fd, owner)
  {
  }

  lemma SameFrozenSameCopies(w: World, v: World, v': World, d: Id, fd: Id)
    requires Snapshot(w, d, fd, v)
    requires v' == v.(auths := v'.auths, next := v'.next)
    ensures Snapshot(w, d, fd, v')
  {
    forall from, to | ResourceCopied(w, v, from, to) ensures ResourceCopied(w, v', from, to) {
    }
  }
}
