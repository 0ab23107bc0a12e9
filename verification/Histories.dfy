/** What the histories and release numbers of a reachable state mean to a reader. */
module Histories {
  import opened Types
  import opened State
  import opened Invariant
  import opened Steps
  import opened Runs
  import opened Downloads

  // ----- Release numbers -----

  function UpTo(n: nat): (s: set<int>)
    ensures forall k :: k in s <==> 1 <= k <= n
    ensures |s| == n
  {
    if n == 0 then {} else UpTo(n - 1) + {n}
  }

  /** A gapless set of positive numbers is 1..n. */
  lemma {:induction false} GaplessIsUpTo(s: set<int>, n: nat)
    requires forall k :: k in s ==> 1 <= k <= n
    requires forall k, j :: k in s && 1 <= j <= k ==> j in s
    ensures s == UpTo(|s|)
  {
    if n in s || n == 0 {
      assert s == UpTo(n);
    } else {
      GaplessIsUpTo(s, n - 1);
    }
  }

  ghost function Numbers(releases: map<Id, Release>, fds: set<Id>): set<int>
    requires fds <= releases.Keys
  {
    set fd | fd in fds :: releases[fd].number
  }

  lemma {:induction false} DistinctNumbers(releases: map<Id, Release>, fds: set<Id>)
    requires fds <= releases.Keys
    requires forall fd, gd :: fd in fds && gd in fds && releases[fd].number == releases[gd].number ==> fd == gd
    ensures |Numbers(releases, fds)| == |fds|
  {
    if fds != {} {
      var fd :| fd in fds;
      DistinctNumbers(releases, fds - {fd});
      assert Numbers(releases, fds) == Numbers(releases, fds - {fd}) + {releases[fd].number};
      assert releases[fd].number !in Numbers(releases, fds - {fd});
    }
  }

  lemma {:induction false} NumberBound(releases: map<Id, Release>, fds: set<Id>) returns (n: nat)
    requires fds <= releases.Keys
    ensures forall fd :: fd in fds ==> releases[fd].number <= n
  {
    n := 0;
    if fds != {} {
      var fd :| fd in fds;
      var m := NumberBound(releases, fds - {fd});
      n := if m > releases[fd].number then m else releases[fd].number;
    }
  }

  /** The releases of a dataset, soft-deleted ones included, carry exactly the numbers 1..n. */
  lemma ReleasesAreNumberedOneToN(w: World, d: Id)
    requires Orderly(w)
    ensures forall k :: HasVersion(w.releases, d, k) <==> 1 <= k <= |ReleasesOf(w.releases, d)|
  {
    var fds := ReleasesOf(w.releases, d);
    var numbers := Numbers(w.releases, fds);
    forall fd, gd | fd in fds && gd in fds && w.releases[fd].number == w.releases[gd].number ensures fd == gd {
      assert IsVersion(w.releases, fd, d, w.releases[fd].number) && IsVersion(w.releases, gd, d, w.releases[fd].number);
    }
    DistinctNumbers(w.releases, fds);
    forall k ensures HasVersion(w.releases, d, k) <==> k in numbers {
      if HasVersion(w.releases, d, k) {
        var fd :| IsVersion(w.releases, fd, d, k);
        assert fd in fds;
      }
      if k in numbers {
        var fd :| fd in fds && w.releases[fd].number == k;
        assert IsVersion(w.releases, fd, d, k);
      }
    }
    forall k, j | k in numbers && 1 <= j <= k ensures j in numbers {
      var fd :| fd in fds && w.releases[fd].number == k;
      assert IsVersion(w.releases, fd, d, k);
      assert HasVersion(w.releases, d, j);
    }
    var n := NumberBound(w.releases, fds);
    GaplessIsUpTo(numbers, n);
  }

  /** The next freeze gets the number after the last: one more than there are releases. */
  lemma NextNumberCounts(w: World, d: Id, n: nat)
    requires Orderly(w) && IsNextNumber(w.releases, d, n)
    ensures n == |ReleasesOf(w.releases, d)| + 1
  {
    ReleasesAreNumberedOneToN(w, d);
    var count := |ReleasesOf(w.releases, d)|;
    if n > 1 {
      var fd :| fd in ReleasesOf(w.releases, d) && w.releases[fd].number == n - 1;
      assert IsVersion(w.releases, fd, d, n - 1);
      assert HasVersion(w.releases, d, n - 1);
    }
    if count >= 1 {
      assert HasVersion(w.releases, d, count);
      var fd :| IsVersion(w.releases, fd, d, count);
      assert fd in ReleasesOf(w.releases, d);
    }
  }

  lemma StepKeepsNumber(w: World, op: Op, w': World, d: Id, fd: Id, n: int)
    requires Issued(w.releases, w.next) && Defined(w, op) && Step(w, op, w') && op != OpDeleteDataset(d)
    requires IsVersion(w.releases, fd, d, n)
    ensures IsVersion(w'.releases, fd, d, n)
  {
    if op.OpDeleteVersion? {
      if HasVersion(w.releases, op.d, op.number) {
        var gd :| IsVersion(w.releases, gd, op.d, op.number) && w' == SoftDelete(w, gd);
        MarkKeepsNumber(w, gd, d, fd, n);
      }
    } else if op.OpFreeze? {
      if op.d in w.datasets {
        var m :| FreezeEnded(w, op.d, m, w');
        FreezeOnlyAdds(w, op.d, m, w');
      }
    } else if op.OpDeleteDataset? {
      if op.d in w.datasets {
        DeleteDatasetFrozen(w, op.d);
      }
    } else {
      WorkingStepLeavesFrozen(w, op, w');
    }
  }

  lemma MarkKeepsNumber(w: World, gd: Id, d: Id, fd: Id, n: int)
    requires gd in w.releases && IsVersion(w.releases, fd, d, n)
    ensures IsVersion(SoftDelete(w, gd).releases, fd, d, n)
  {
  }

  lemma OneReleasePerNumber(w: World, fd: Id, gd: Id, d: Id, n: int)
    requires Numbered(w.datasets, w.releases) && IsVersion(w.releases, fd, d, n) && IsVersion(w.releases, gd, d, n)
    ensures fd == gd
  {
  }

  /** No operation deletes dataset `d`. */
  predicate Survives(ops: seq<Op>, d: Id) {
    forall i :: 0 <= i < |ops| ==> ops[i] != OpDeleteDataset(d)
  }

  lemma {:induction false} NumberStays(ws: seq<World>, ops: seq<Op>, d: Id, fd: Id, n: int, i: nat)
    requires Run(ws, ops) && Orderly(ws[0]) && Survives(ops, d) && i <= |ops|
    requires IsVersion(ws[0].releases, fd, d, n)
    ensures IsVersion(ws[i].releases, fd, d, n)
  {
    if i > 0 {
      NumberStays(ws, ops, d, fd, n, i - 1);
      NextKeepsNumber(ws, ops, d, fd, n, i - 1);
    }
  }

  lemma NextKeepsNumber(ws: seq<World>, ops: seq<Op>, d: Id, fd: Id, n: int, i: nat)
    requires Run(ws, ops) && Orderly(ws[0]) && Survives(ops, d) && i < |ops|
    requires IsVersion(ws[i].releases, fd, d, n)
    ensures IsVersion(ws[i + 1].releases, fd, d, n)
  {
    RunKeepsOrder(ws, ops, i);
    StepKeepsNumber(ws[i], ops[i], ws[i + 1], d, fd, n);
  }

  /** Over every run, conditions met or not: while the dataset lives, a number once given stays with its
      release, deleted or not, and no later release gets it. */
  lemma NumberIsNeverReused(ws: seq<World>, ops: seq<Op>, d: Id, fd: Id, n: int, i: nat)
    requires Run(ws, ops) && Orderly(ws[0]) && Survives(ops, d) && i <= |ops|
    requires IsVersion(ws[0].releases, fd, d, n)
    ensures forall gd :: IsVersion(ws[i].releases, gd, d, n) <==> gd == fd
  {
    NumberStays(ws, ops, d, fd, n, i);
    RunKeepsOrder(ws, ops, i);
    forall gd | IsVersion(ws[i].releases, gd, d, n) ensures gd == fd {
      OneReleasePerNumber(ws[i], fd, gd, d, n);
    }
  }

  // ----- File versions -----

  function VersionIdOf(w: World, v: Id): Option<string> {
    if v in w.versions then Some(w.versions[v].versionId) else None
  }

  /** The number a frozen stored file carries is found exactly as long as the working file it was copied
      from is there; then in one record only, and that record is the version current at the freeze. */
  lemma PinnedVersionIsFoundIff(w: World, x: Id)
    requires Orderly(w) && x in w.frozenFiles && w.frozenFiles[x].storage == Minio
    ensures (exists v :: LooksUp(w, x, w.frozenFiles[x].versionNum, v)) <==> w.frozenFiles[x].origin.value in w.files
    ensures forall v :: LooksUp(w, x, w.frozenFiles[x].versionNum, v) ==>
              VersionIdOf(w, v) == Some(w.frozenFiles[x].versionId)
    ensures forall u, v | LooksUp(w, x, w.frozenFiles[x].versionNum, u) ::
              LooksUp(w, x, w.frozenFiles[x].versionNum, v) ==> u == v
  {
    var frozen := w.frozenFiles[x];
    var o := frozen.origin.value;
    if o in w.files {
      assert ShareWorking(w.files, w.frozenFiles, x, o);
      assert Pinned(w.versions, o, w.files[o], frozen) && Recorded(w.versions, o, w.files[o]);
      assert HasRecord(w.versions, o, frozen.versionNum);
      var v :| Records(w.versions, v, o, frozen.versionNum);
      assert LooksUp(w, x, frozen.versionNum, v);
    }
    LooksUpOrigin(w, x);
  }

  /** No record is kept under a frozen file's own id, nor under that of a file that is gone. */
  lemma LooksUpOrigin(w: World, x: Id)
    requires IdsIssued(w) && History(w.files, w.frozenFiles, w.versions)
    requires x in w.frozenFiles && w.frozenFiles[x].storage == Minio
    ensures forall v, num :: LooksUp(w, x, num, v) ==>
              Records(w.versions, v, w.frozenFiles[x].origin.value, num) && w.frozenFiles[x].origin.value in w.files
  {
    forall v, num | LooksUp(w, x, num, v)
      ensures Records(w.versions, v, w.frozenFiles[x].origin.value, num) && w.frozenFiles[x].origin.value in w.files
    {
      assert OfOrigin(w.frozenFiles, w.versions, x, v);
    }
  }

  /** What the download route answers for the version a release pinned, in any state: that version of the
      shared object while the working file is there, 404 afterwards; where the object store is exact the
      object is still kept. */
  lemma DownloadOfPinnedIff(w: World, x: Id, r: Outcome<Download>)
    requires Orderly(w) && x in w.frozenFiles && w.frozenFiles[x].storage == Minio
    requires Answer(w, x, Some(w.frozenFiles[x].versionNum), r)
    ensures var file := w.frozenFiles[x];
            && r == (if file.origin.value in w.files then Ok(Object(file.origin.value, Some(file.versionId))) else Err(404))
            && (BytesExact(w.files, w.frozenFiles, w.objects) ==> file.origin.value in w.objects)
  {
    PinnedVersionIsFoundIff(w, x);
    assert w.frozenFiles[x].origin.value in LiveKeys(w.files, w.frozenFiles);
  }

  /** The removal of a folder, or of its file by the reference-counting routine, is what loses it. */
  lemma RemovalLosesPinnedVersion(w: World, x: Id, doomed: set<Id>)
    requires Orderly(w) && BytesExact(w.files, w.frozenFiles, w.objects)
    requires x in w.frozenFiles && w.frozenFiles[x].storage == Minio && w.frozenFiles[x].origin.value in doomed
    ensures var w' := DropFiles(w, doomed);
            && x in w'.frozenFiles && w'.frozenFiles[x] == w.frozenFiles[x] && w.frozenFiles[x].origin.value in w'.objects
            && forall r :: Answer(w', x, Some(w.frozenFiles[x].versionNum), r) ==> r == Err(404)
  {
    var w' := DropFiles(w, doomed);
    DropFilesKeepsOrder(w, doomed);
    DropFilesBytes(w, doomed);
    forall r | Answer(w', x, Some(w.frozenFiles[x].versionNum), r) ensures r == Err(404) {
      DownloadOfPinnedIff(w', x, r);
    }
    assert w'.frozenFiles[x].origin.value in LiveKeys(w'.files, w'.frozenFiles);
  }

  /** Over any run, conditions met or not: however often the working file is updated afterwards, the frozen
      file's number leads to the version it was frozen with, exactly as long as the working file is there. */
  lemma PinnedVersionStaysIff(ws: seq<World>, ops: seq<Op>, fd: Id, x: Id, i: nat, r: Outcome<Download>)
    requires Run(ws, ops) && Orderly(ws[0]) && fd in ws[0].releases && Spares(ws, ops, fd) && i <= |ops|
    requires x in ws[0].frozenFiles && ws[0].frozenFiles[x].dataset == fd && ws[0].frozenFiles[x].storage == Minio
    requires Answer(ws[i], x, Some(ws[0].frozenFiles[x].versionNum), r)
    ensures var file := ws[0].frozenFiles[x];
            && file.origin.Some?
            && r == if file.origin.value in ws[i].files then Ok(Object(file.origin.value, Some(file.versionId)))
                    else Err(404)
  {
    RunLeavesRelease(ws, ops, fd, i);
    RunKeepsOrder(ws, ops, i);
    assert x in ContentOf(ws[0], fd).files;
    assert x in ContentOf(ws[i], fd).files && ws[i].frozenFiles[x] == ws[0].frozenFiles[x];
    DownloadOfPinnedIff(ws[i], x, r);
  }
}
