/** What metadata keeps over runs: it never outlives what it is attached to, it names a version there is, and
    on a dataset a definition is used once by each writer. */
module Attachments {
  import opened Types
  import opened Nested
  import opened State
  import opened Invariant
  import opened Steps
  import opened Runs

  /** The resource is there, and so is the version of the file the entry is about. */
  ghost predicate AttachedTo(w: World, doc: Doc) {
    match doc.owner.collection
    case Datasets => doc.owner.id in w.datasets
    case Files => doc.owner.id in w.files && doc.version.Some? &&
                  (doc.version.value > 0 ==> HasRecord(w.versions, doc.owner.id, doc.version.value))
    case VisConfigs => false
  }

  ghost predicate Current(w: World, f: Id)
    requires f in w.files
  {
    w.files[f].versionNum > 0 ==> HasRecord(w.versions, f, w.files[f].versionNum)
  }

  /** All metadata is attached, and every file's current version is on record. */
  ghost predicate Attached(w: World) {
    && (forall m :: m in w.metadata ==> AttachedTo(w, w.metadata[m]))
    && (forall f :: f in w.files ==> Current(w, f))
  }

  /** The same writer: one extractor, or one user's own hand. */
  predicate SameHand(a: Agent, b: Agent) {
    a.listener == b.listener && (a.listener.None? ==> a.creator == b.creator)
  }

  /** One definition used twice by one writer: on a dataset, or on one version of a file. */
  predicate Alike(a: Doc, b: Doc) {
    && a.owner == b.owner && a.definition.Some? && a.definition == b.definition && SameHand(a.agent, b.agent)
    && (a.owner.collection == Files ==> a.version == b.version)
  }

  predicate SameEntry(docs: map<Id, Doc>, c: Collection, m: Id, n: Id) {
    m in docs && n in docs && docs[m].owner.collection == c && Alike(docs[m], docs[n])
  }

  ghost predicate OneEach(docs: map<Id, Doc>, c: Collection) {
    forall m, n :: SameEntry(docs, c, m, n) ==> m == n
  }

  /** Some entry is already there in place of `doc`. */
  predicate Repeats(docs: map<Id, Doc>, doc: Doc) {
    exists o :: o in docs && Alike(docs[o], doc)
  }

  // ----- Deletions and changes elsewhere -----

  /** Of what `w` has, `w'` keeps the entries `docs` with all they are attached to. */
  ghost predicate Trimmed(w: World, w': World) {
    && (forall m :: m in w'.metadata ==> m in w.metadata && w'.metadata[m] == w.metadata[m] &&
                                         Remains(w', w.metadata[m].owner))
    && (forall f :: f in w'.files ==> f in w.files && w'.files[f] == w.files[f])
    && (forall v :: v in w.versions && w.versions[v].file in w'.files ==>
          v in w'.versions && w'.versions[v] == w.versions[v])
  }

  predicate Remains(w: World, owner: Ref) {
    match owner.collection
    case Datasets => owner.id in w.datasets
    case Files => owner.id in w.files
    case VisConfigs => true
  }

  lemma TrimmedStaysAttached(w: World, w': World)
    requires Attached(w) && Trimmed(w, w')
    ensures Attached(w')
  {
    forall f, num | f in w'.files && HasRecord(w.versions, f, num) ensures HasRecord(w'.versions, f, num) {
      var v :| v in w.versions && Records(w.versions, v, f, num);
      assert Records(w'.versions, v, f, num);
    }
    forall m | m in w'.metadata ensures AttachedTo(w', w'.metadata[m]) {
      assert AttachedTo(w, w.metadata[m]) && Remains(w', w.metadata[m].owner);
    }
    forall f | f in w'.files ensures Current(w', f) {
      assert Current(w, f);
    }
  }

  /** What a route keeps. */
  ghost predicate Kept(w: World, w': World) {
    (Attached(w) ==> Attached(w')) && forall c :: OneEach(w.metadata, c) ==> OneEach(w'.metadata, c)
  }

  lemma TrimmedKeeps(w: World, w': World)
    requires Attached(w) ==> Trimmed(w, w')
    requires forall m :: m in w'.metadata ==> m in w.metadata && w'.metadata[m] == w.metadata[m]
    ensures Kept(w, w')
  {
    if Attached(w) {
      TrimmedStaysAttached(w, w');
    }
    forall m, n, c | SameEntry(w'.metadata, c, m, n) ensures SameEntry(w.metadata, c, m, n) {
    }
  }

  lemma DropFilesTrims(w: World, doomed: set<Id>)
    requires Attached(w)
    ensures Trimmed(w, DropFiles(w, doomed))
  {
    forall m | m in DropFiles(w, doomed).metadata ensures Remains(DropFiles(w, doomed), w.metadata[m].owner) {
      assert AttachedTo(w, w.metadata[m]);
    }
  }

  lemma DropFoldersKeepsMetadata(w: World, doomed: set<Id>)
    ensures Kept(w, DropFolders(w, doomed))
  {
    if Attached(w) {
      DropFilesTrims(w, FilesIn(w.files, doomed));
    }
    TrimmedKeeps(w, DropFolders(w, doomed));
  }

  lemma DeleteFileKeepsMetadata(w: World, f: Id)
    ensures Kept(w, DeleteFile(w, f).0)
  {
    hide Kept, Trimmed, DropLocalFile, DropStoredFile;
    if f !in w.files {
      ElsewhereKeeps(w, w);
    } else if w.files[f].storage == Local {
      DropLocalKeepsMetadata(w, f);
    } else {
      DropStoredKeepsMetadata(w, f);
    }
  }

  lemma DropLocalKeepsMetadata(w: World, f: Id)
    ensures Kept(w, DropLocalFile(w, f))
  {
    var w' := DropLocalFile(w, f);
    if Attached(w) {
      forall m | m in w'.metadata ensures Remains(w', w.metadata[m].owner) {
        assert AttachedTo(w, w.metadata[m]);
      }
    }
    TrimmedKeeps(w, w');
  }

  lemma DropStoredKeepsMetadata(w: World, f: Id)
    ensures Kept(w, DropStoredFile(w, f))
  {
    var w' := DropStoredFile(w, f);
    if Attached(w) {
      forall m | m in w'.metadata ensures Remains(w', w.metadata[m].owner) {
        assert AttachedTo(w, w.metadata[m]);
      }
    }
    TrimmedKeeps(w, w');
  }

  lemma DeleteDatasetKeepsMetadata(w: World, d: Id)
    ensures Kept(w, DeleteDataset(w, d).0)
  {
    if d in w.datasets {
      var w' := DeleteDataset(w, d).0;
      WorkingAfterDelete(w, d);
      if Attached(w) {
        forall m | m in w'.metadata ensures Remains(w', w.metadata[m].owner) {
          assert AttachedTo(w, w.metadata[m]);
        }
      }
      TrimmedKeeps(w, w');
    }
  }

  lemma WorkingAfterDelete(w: World, d: Id)
    requires d in w.datasets
    ensures var w', mine := DeleteDataset(w, d).0, FilesOf(w.files, {d});
            && w'.datasets == w.datasets - {d} && w'.files == w.files - mine
            && (forall m :: m in w'.metadata ==>
                  m in w.metadata && w'.metadata[m] == w.metadata[m] && w.metadata[m].owner != Ref(Datasets, d) &&
                  !(w.metadata[m].owner.collection == Files && w.metadata[m].owner.id in mine))
            && (forall v :: v in w.versions && w.versions[v].file !in mine ==>
                  v in w'.versions && w'.versions[v] == w.versions[v])
  {
  }

  /** Nothing metadata is about has changed. */
  lemma ElsewhereKeeps(w: World, w': World)
    requires SameFiles(w, w')
    ensures Kept(w, w')
  {
    if Attached(w) {
      forall m | m in w.metadata ensures AttachedTo(w', w.metadata[m]) {
        assert AttachedTo(w, w.metadata[m]);
      }
      forall f | f in w.files ensures Current(w', f) {
        assert Current(w, f);
      }
    }
  }

  // ----- Files and versions -----

  /** The files are those of before but `f`, which may be new; the records those of before and more. */
  lemma FileChangeKeeps(w: World, w': World, f: Id)
    requires w'.metadata == w.metadata && w'.datasets == w.datasets && f in w'.files
    requires forall g :: g in w.files ==> g in w'.files && (g != f ==> w'.files[g] == w.files[g])
    requires forall g :: g in w'.files && g != f ==> g in w.files
    requires forall v :: v in w.versions ==> v in w'.versions && w'.versions[v] == w.versions[v]
    requires Current(w', f)
    ensures Kept(w, w')
  {
    forall g, num | HasRecord(w.versions, g, num) ensures HasRecord(w'.versions, g, num) {
      var v :| v in w.versions && Records(w.versions, v, g, num);
      assert Records(w'.versions, v, g, num);
    }
    if Attached(w) {
      forall m | m in w.metadata ensures AttachedTo(w', w.metadata[m]) {
        assert AttachedTo(w, w.metadata[m]);
      }
      forall g | g in w'.files ensures Current(w', g) {
        assert g != f ==> Current(w, g);
      }
    }
  }

  lemma StoreFileKeepsMetadata(w: World, file: File)
    requires Issued(w.versions, w.next)
    ensures Kept(w, StoreFile(w, file))
  {
    var w' := StoreFile(w, file);
    assert Records(w'.versions, w.next + 1, w.next, file.versionNum);
    FileChangeKeeps(w, w', w.next);
  }

  lemma InsertFileKeepsMetadata(w: World, file: File)
    requires file.versionNum == 0
    ensures Kept(w, InsertFile(w, file))
  {
    FileChangeKeeps(w, InsertFile(w, file), w.next);
  }

  lemma StoreVersionKeepsMetadata(w: World, f: Id, versionId: string)
    requires Issued(w.versions, w.next) && f in w.files
    ensures Kept(w, StoreVersion(w, f, versionId))
  {
    var w' := StoreVersion(w, f, versionId);
    assert Records(w'.versions, w.next, f, w'.files[f].versionNum);
    FileChangeKeeps(w, w', f);
  }

  // ----- Entries -----

  lemma InsertStaysAttached(w: World, doc: Doc)
    requires Attached(w) ==> AttachedTo(w, doc)
    ensures Attached(w) ==> Attached(InsertMetadata(w, doc))
  {
    var w' := InsertMetadata(w, doc);
    if Attached(w) {
      forall m | m in w'.metadata ensures AttachedTo(w', w'.metadata[m]) {
        assert m != w.next ==> AttachedTo(w, w.metadata[m]);
      }
      forall f | f in w'.files ensures Current(w', f) {
        assert Current(w, f);
      }
    }
  }

  lemma AlikeEitherWay(a: Doc, b: Doc)
    ensures Alike(a, b) <==> Alike(b, a)
  {
  }

  /** A new entry leaves one each exactly when it repeats none. */
  lemma InsertRepeatsIff(docs: map<Id, Doc>, id: Id, doc: Doc, c: Collection)
    requires id !in docs && OneEach(docs, c)
    ensures OneEach(docs[id := doc], c) <==> doc.owner.collection != c || !Repeats(docs, doc)
  {
    var more := docs[id := doc];
    if doc.owner.collection == c && Repeats(docs, doc) {
      var o :| o in docs && Alike(docs[o], doc);
      assert SameEntry(more, c, o, id) && o != id;
    } else {
      forall m, n | SameEntry(more, c, m, n) ensures m == n {
        assert m != id && n != id ==> SameEntry(docs, c, m, n);
        AlikeEitherWay(more[m], more[n]);
      }
    }
  }

  lemma AddMetadataKeeps(w: World, d: Id, m: MetadataIn)
    requires w.next !in w.metadata
    ensures Kept(w, AddMetadata(w, d, m).0)
  {
    if AddMetadata(w, d, m).1.Ok? {
      var doc := Doc(Ref(Datasets, d), m.definition, m.agent, m.version, m.body, None);
      forall o | o in w.metadata ensures !Alike(w.metadata[o], doc) {
        if m.definition.Some? {
          assert o !in MetadataFor(w, d, m);
        }
      }
      InsertStaysAttached(w, doc);
      forall c | OneEach(w.metadata, c) ensures OneEach(w.metadata[w.next := doc], c) {
        InsertRepeatsIff(w.metadata, w.next, doc, c);
      }
    }
  }

  /** An entry of a file is stored under the version sent if that is positive, which then is on record, else
      under the current one. It leaves one entry for each file version, definition and writer exactly when
      there is none at the version it is stored under: neither the query, which finds one entry of several,
      nor its comparison with the version sent, which may not be the version stored, makes sure of that. */
  lemma AddFileMetadataOnceIff(w: World, f: Id, m: MetadataIn, pick: Option<Id>)
    requires f in w.files && (m.definition.Some? ==> Answers(pick, MetadataFor(w, f, m))) && w.next !in w.metadata
    ensures var (w', r) := AddFileMetadata(w, f, m, pick);
            && (Attached(w) ==> Attached(w')) && (OneEach(w.metadata, Datasets) ==> OneEach(w'.metadata, Datasets))
            && (r.Err? ==> w' == w)
            && (r.Ok? ==>
                  var entry := w'.metadata[w.next];
                  && r.value == w.next && w'.metadata == w.metadata[w.next := entry]
                  && entry.owner == Ref(Files, f) && entry.definition == m.definition && entry.agent == m.agent
                  && entry.version == Some(if m.version.Some? && m.version.value > 0 then m.version.value
                                           else w.files[f].versionNum)
                  && (m.version.Some? && m.version.value > 0 ==> HasRecord(w.versions, f, m.version.value))
                  && (OneEach(w.metadata, Files) ==> (OneEach(w'.metadata, Files) <==> !Repeats(w.metadata, entry))))
  {
    if AddFileMetadata(w, f, m, pick).1.Ok? {
      var doc := FileEntry(w.files[f], f, m);
      if Attached(w) {
        assert Current(w, f);
        assert AttachedTo(w, doc);
      }
      InsertStaysAttached(w, doc);
      forall c | OneEach(w.metadata, c)
        ensures OneEach(w.metadata[w.next := doc], c) <==> c != Files || !Repeats(w.metadata, doc) {
        InsertRepeatsIff(w.metadata, w.next, doc, c);
      }
    }
  }

  lemma SetBodyKeepsMetadata(w: World, m: Id, body: Json)
    requires m in w.metadata
    ensures Kept(w, SetBody(w, m, body))
  {
    var w' := SetBody(w, m, body);
    if Attached(w) {
      forall n | n in w'.metadata ensures AttachedTo(w', w'.metadata[n]) {
        assert AttachedTo(w, w.metadata[n]);
      }
      forall f | f in w'.files ensures Current(w', f) {
        assert Current(w, f);
      }
    }
    forall n, o, c | SameEntry(w'.metadata, c, n, o) ensures SameEntry(w.metadata, c, n, o) {
    }
  }

  // ----- Runs -----

  lemma FileStepKeepsMetadata(w: World, op: Op, w': World)
    requires Issued(w.versions, w.next) && Defined(w, op) && Step(w, op, w') && IsFileOp(op)
    ensures Kept(w, w')
  {
    hide Kept;
    match op
    case OpUpload(d, name, contentType, folder, versionId) =>
      if d in w.datasets && FolderThere(w, folder) {
        StoreFileKeepsMetadata(w, File(name, contentType, d, folder, Minio, versionId, 1, None));
      } else {
        ElsewhereKeeps(w, w');
      }
    case OpUploadLocal(d, name, contentType, folder, cleared) =>
      if d in w.datasets && cleared && FolderThere(w, folder) {
        InsertFileKeepsMetadata(w, File(name, contentType, d, folder, Local, "N/A", 0, None));
      } else {
        ElsewhereKeeps(w, w');
      }
    case OpUpdateFile(f, name, contentType, versionId) =>
      if f in w.files && name == w.files[f].name && contentType == w.files[f].contentType {
        StoreVersionKeepsMetadata(w, f, versionId);
      } else {
        ElsewhereKeeps(w, w');
      }
    case OpDeleteFile(f) => DeleteFileKeepsMetadata(w, f);
  }

  lemma MetadataStepKeepsMetadata(w: World, op: Op, w': World)
    requires w.next !in w.metadata && Defined(w, op) && Step(w, op, w') && IsMetadataOp(op) && !op.OpAddFileMetadata?
    ensures Kept(w, w')
  {
    hide Kept;
    match op
    case OpAddMetadata(d, entry) => AddMetadataKeeps(w, d, entry);
    case OpPatchMetadata(m, patch, accepted) =>
      if PatchMetadata(w, m, patch, accepted).1.Ok? {
        SetBodyKeepsMetadata(w, m, Update(w.metadata[m].body, patch));
      } else {
        ElsewhereKeeps(w, w');
      }
  }

  /** The route adds an entry to a file that has one in its place. */
  ghost predicate RepeatsEntry(w: World, op: Op)
    requires Defined(w, op)
  {
    && op.OpAddFileMetadata? && AddFileMetadata(w, op.f, op.entry, op.pick).1.Ok?
    && Repeats(w.metadata, FileEntry(w.files[op.f], op.f, op.entry))
  }

  lemma AddFileStep(w: World, op: Op, w': World)
    requires w.next !in w.metadata && Defined(w, op) && Step(w, op, w') && op.OpAddFileMetadata?
    ensures (Attached(w) ==> Attached(w')) && (OneEach(w.metadata, Datasets) ==> OneEach(w'.metadata, Datasets))
    ensures OneEach(w.metadata, Files) ==> (OneEach(w'.metadata, Files) <==> !RepeatsEntry(w, op))
  {
    if op.f in w.files {
      AddFileMetadataOnceIff(w, op.f, op.entry, op.pick);
      hide Attached, OneEach, Repeats;
    }
  }

  lemma OtherStepKeepsMetadata(w: World, op: Op, w': World)
    requires Defined(w, op) && Step(w, op, w') && !IsFileOp(op) && !IsMetadataOp(op)
    ensures Kept(w, w')
  {
    hide Kept;
    if op.OpDeleteFolder? && op.d in w.datasets && op.f in w.folders {
      DropFoldersKeepsMetadata(w, DoomedBy(w, op.d, op.f));
    } else if op.OpDeleteDataset? {
      DeleteDatasetKeepsMetadata(w, op.d);
    } else {
      StepElsewhere(w, op, w');
      ElsewhereKeeps(w, w');
    }
  }

  lemma StepElsewhere(w: World, op: Op, w': World)
    requires Defined(w, op) && Step(w, op, w') && !IsFileOp(op) && !IsMetadataOp(op) && !op.OpDeleteDataset?
    requires op.OpDeleteFolder? ==> op.d !in w.datasets || op.f !in w.folders
    ensures SameFiles(w, w')
  {
    assert SameFiles(w, w);
    hide FreezeEnded, SoftDelete, OnlyAdds;
    match op
    case OpCreateDataset(name) => CreateElsewhere(w, name);
    case OpAddFolder(d, name, parent) => FoldersElsewhere(w, d, 0, Some(name), parent);
    case OpPatchFolder(d, f, name, parent) => FoldersElsewhere(w, d, f, name, parent);
    case OpDeleteFolder(d, f) =>
    case OpFreeze(d) =>
      if d in w.datasets {
        var n :| FreezeEnded(w, d, n, w');
        FreezeOnlyAdds(w, d, n, w');
      }
    case OpDeleteVersion(d, number) =>
      if HasVersion(w.releases, d, number) {
        var fd :| IsVersion(w.releases, fd, d, number) && w' == SoftDelete(w, fd);
        VersionElsewhere(w, fd);
      }
  }

  lemma VersionElsewhere(w: World, fd: Id)
    requires fd in w.releases
    ensures SameFiles(w, SoftDelete(w, fd))
  {
  }

  /** One route, whatever it is called with. */
  lemma StepKeepsMetadata(w: World, op: Op, w': World)
    requires Orderly(w) && Defined(w, op) && Step(w, op, w')
    ensures (Attached(w) ==> Attached(w')) && (OneEach(w.metadata, Datasets) ==> OneEach(w'.metadata, Datasets))
    ensures OneEach(w.metadata, Files) ==> (OneEach(w'.metadata, Files) <==> !RepeatsEntry(w, op))
  {
    assert Issued(w.versions, w.next) && w.next !in w.metadata;
    hide Orderly, Step, Defined, Attached, OneEach;
    if op.OpAddFileMetadata? {
      AddFileStep(w, op, w');
    } else if IsFileOp(op) {
      FileStepKeepsMetadata(w, op, w');
    } else if IsMetadataOp(op) {
      MetadataStepKeepsMetadata(w, op, w');
    } else {
      OtherStepKeepsMetadata(w, op, w');
    }
  }

  /** Over every run, whatever the routes are called with: no metadata outlives its dataset or file, an entry
      of a file names a version on record, and a definition stands once on a dataset for each extractor
      and for each user. */
  lemma {:induction false} RunKeepsMetadata(ws: seq<World>, ops: seq<Op>, i: nat)
    requires Run(ws, ops) && Orderly(ws[0]) && Attached(ws[0]) && OneEach(ws[0].metadata, Datasets) && i <= |ops|
    ensures Attached(ws[i]) && OneEach(ws[i].metadata, Datasets)
  {
    hide Attached, OneEach, Orderly;
    if i > 0 {
      RunKeepsMetadata(ws, ops, i - 1);
      RunKeepsOrder(ws, ops, i - 1);
      StepKeepsMetadata(ws[i - 1], ops[i - 1], ws[i]);
    }
  }

  /** ... and once on each version of a file, as long as no route adds an entry in the place of another. */
  lemma {:induction false} RunKeepsFileEntries(ws: seq<World>, ops: seq<Op>, i: nat)
    requires Run(ws, ops) && Orderly(ws[0]) && OneEach(ws[0].metadata, Files) && i <= |ops|
    requires forall j {:trigger ops[j]} :: 0 <= j < |ops| ==> !RepeatsEntry(ws[j], ops[j])
    ensures OneEach(ws[i].metadata, Files)
  {
    hide Attached, OneEach, Orderly;
    if i > 0 {
      RunKeepsFileEntries(ws, ops, i - 1);
      RunKeepsOrder(ws, ops, i - 1);
      StepKeepsMetadata(ws[i - 1], ops[i - 1], ws[i]);
    }
  }
}
