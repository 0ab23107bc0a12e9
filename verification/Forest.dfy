/** The folder forest: every folder names at most one parent. Nothing in the record itself rules
    out a cycle, so acyclicity is a property of the collection, witnessed by a rank. */
module Forest {
  import opened Types

  /** One record of `folders` or `folders_freeze`; `origin` is set in frozen copies only. */
  datatype Folder = Folder(name: string, dataset: Id, parent: Option<Id>, origin: Option<Id>)

  type Folders = map<Id, Folder>

  predicate HasParent(fs: Folders, f: Id) {
    f in fs && fs[f].parent.Some? && fs[f].parent.value in fs
  }

  function ParentOf(fs: Folders, f: Id): Id
    requires HasParent(fs, f)
  {
    fs[f].parent.value
  }

  /** No folder names a parent that is gone. */
  ghost predicate Closed(fs: Folders) {
    forall f {:trigger fs[f].parent.value} :: f in fs && fs[f].parent.Some? ==> fs[f].parent.value in fs
  }

  /** Parent links stay inside one dataset. */
  ghost predicate OneDataset(fs: Folders) {
    forall f :: HasParent(fs, f) ==> fs[ParentOf(fs, f)].dataset == fs[f].dataset
  }

  ghost predicate Ranked(fs: Folders, rank: map<Id, nat>) {
    rank.Keys == fs.Keys && forall f :: HasParent(fs, f) ==> rank[ParentOf(fs, f)] < rank[f]
  }

  ghost predicate Acyclic(fs: Folders) {
    exists rank :: Ranked(fs, rank)
  }

  ghost function RankOf(fs: Folders): (rank: map<Id, nat>)
    requires Acyclic(fs)
    ensures Ranked(fs, rank)
  {
    var rank :| Ranked(fs, rank); rank
  }

  /** The folders from the root down to `f`, the order in which a path is written. */
  ghost function Chain(fs: Folders, f: Id): (chain: seq<Id>)
    requires Acyclic(fs) && f in fs
    ensures chain != [] && chain[|chain| - 1] == f
    ensures forall g :: g in chain ==> g in fs
    decreases RankOf(fs)[f]
  {
    if HasParent(fs, f) then Chain(fs, ParentOf(fs, f)) + [f] else [f]
  }

  /** `x` is `f` or one of its descendants. */
  ghost predicate Under(fs: Folders, x: Id, f: Id)
    requires Acyclic(fs)
  {
    x in fs && f in Chain(fs, x)
  }

  ghost function Subtree(fs: Folders, f: Id): set<Id>
    requires Acyclic(fs)
  {
    set x | x in fs && Under(fs, x, f)
  }

  // ----- The walk up -----

  /** Every folder on the way up ranks below the folder the walk started from. */
  lemma {:induction false} RankDropsUpTheChain(fs: Folders, x: Id, g: Id)
    requires Acyclic(fs) && x in fs && g in Chain(fs, x)
    ensures g == x || (HasParent(fs, x) && g in Chain(fs, ParentOf(fs, x)) && RankOf(fs)[g] < RankOf(fs)[x])
    decreases RankOf(fs)[x]
  {
    if g != x {
      RankDropsUpTheChain(fs, ParentOf(fs, x), g);
    }
  }

  lemma {:induction false} UnderTransitive(fs: Folders, x: Id, y: Id, z: Id)
    requires Acyclic(fs) && Under(fs, x, y) && Under(fs, y, z)
    ensures Under(fs, x, z)
    decreases RankOf(fs)[x]
  {
    if x != y {
      RankDropsUpTheChain(fs, x, y);
      UnderTransitive(fs, ParentOf(fs, x), y, z);
    }
  }

  lemma UnderAntisymmetric(fs: Folders, x: Id, y: Id)
    requires Acyclic(fs) && Under(fs, x, y) && Under(fs, y, x)
    ensures x == y
  {
    RankDropsUpTheChain(fs, x, y);
    RankDropsUpTheChain(fs, y, x);
  }

  /** Two folders above a common one are one above the other. */
  lemma {:induction false} UnderComparable(fs: Folders, x: Id, y: Id, z: Id)
    requires Acyclic(fs) && Under(fs, x, y) && Under(fs, x, z)
    ensures Under(fs, y, z) || Under(fs, z, y)
    decreases RankOf(fs)[x]
  {
    if x != y && x != z {
      RankDropsUpTheChain(fs, x, y);
      RankDropsUpTheChain(fs, x, z);
      UnderComparable(fs, ParentOf(fs, x), y, z);
    }
  }

  lemma {:induction false} ChainInOneDataset(fs: Folders, x: Id, g: Id)
    requires Acyclic(fs) && OneDataset(fs) && Under(fs, x, g)
    ensures fs[g].dataset == fs[x].dataset
    decreases RankOf(fs)[x]
  {
    if g != x {
      RankDropsUpTheChain(fs, x, g);
      ChainInOneDataset(fs, ParentOf(fs, x), g);
    }
  }

  /** Two collections with the same records on a set closed under parents walk it the same way. */
  lemma {:induction false} ChainsAgree(fs: Folders, gs: Folders, shared: set<Id>, f: Id)
    requires Acyclic(fs) && Acyclic(gs)
    requires shared <= fs.Keys && shared <= gs.Keys && f in shared
    requires forall x :: x in shared ==> fs[x].parent == gs[x].parent
    requires forall x :: x in shared && (HasParent(fs, x) || HasParent(gs, x)) ==> fs[x].parent.value in shared
    ensures Chain(fs, f) == Chain(gs, f)
    ensures forall x :: x in Chain(fs, f) ==> x in shared
    decreases RankOf(fs)[f]
  {
    if HasParent(fs, f) {
      ChainsAgree(fs, gs, shared, ParentOf(fs, f));
    }
  }

  // ----- When does a walk up the parents end? -----

  /** `n` steps up from `f`; `None` once the walk has left the collection. */
  function Climb(fs: Folders, f: Id, n: nat): Option<Id>
    decreases n
  {
    if f !in fs then None
    else if n == 0 then Some(f)
    else if HasParent(fs, f) then Climb(fs, ParentOf(fs, f), n - 1)
    else None
  }

  ghost predicate WalkEnds(fs: Folders, f: Id) {
    exists n: nat :: Climb(fs, f, n) == None
  }

  lemma {:induction false} RankBoundsTheWalk(fs: Folders, rank: map<Id, nat>, f: Id)
    requires Ranked(fs, rank) && f in fs
    ensures Climb(fs, f, rank[f] + 1) == None
    decreases rank[f]
  {
    if HasParent(fs, f) {
      RankBoundsTheWalk(fs, rank, ParentOf(fs, f));
      ClimbStaysOut(fs, ParentOf(fs, f), rank[ParentOf(fs, f)] + 1, rank[f]);
    }
  }

  lemma {:induction false} ClimbStaysOut(fs: Folders, f: Id, n: nat, m: nat)
    requires Climb(fs, f, n) == None && n <= m
    ensures Climb(fs, f, m) == None
    decreases n
  {
    if n > 0 && HasParent(fs, f) {
      ClimbStaysOut(fs, ParentOf(fs, f), n - 1, m - 1);
    }
  }

  /** The number of steps after which the walk from `f` is out. */
  ghost function Height(fs: Folders, f: Id, bound: nat): (n: nat)
    requires Climb(fs, f, bound) == None
    ensures n <= bound && Climb(fs, f, n) == None && forall m: nat :: m < n ==> Climb(fs, f, m) != None
  {
    if bound > 0 && Climb(fs, f, bound - 1) == None then Height(fs, f, bound - 1)
    else
      assert bound > 0 ==> forall m: nat :: m < bound ==> Climb(fs, f, m) != None by {
        forall m: nat | m < bound ensures Climb(fs, f, m) != None {
          if Climb(fs, f, m) == None {
            ClimbStaysOut(fs, f, m, bound - 1);
          }
        }
      }
      bound
  }

  /** The forest is acyclic exactly when the walk to the root ends from every folder: the rank is
      the measure that bounds the recursive path writer, the path loop and the freeze recursion. */
  lemma AcyclicIffEveryWalkEnds(fs: Folders)
    ensures Acyclic(fs) <==> forall f :: f in fs ==> WalkEnds(fs, f)
  {
    if Acyclic(fs) {
      forall f | f in fs ensures WalkEnds(fs, f) {
        RankBoundsTheWalk(fs, RankOf(fs), f);
      }
    }
    if forall f :: f in fs ==> WalkEnds(fs, f) {
      EndingWalksRank(fs);
    }
  }

  lemma EndingWalksRank(fs: Folders)
    requires forall f :: f in fs ==> WalkEnds(fs, f)
    ensures Acyclic(fs)
  {
    var rank := map f | f in fs :: Height(fs, f, WalkBound(fs, f));
    forall f | HasParent(fs, f) ensures rank[ParentOf(fs, f)] < rank[f] {
      var p := ParentOf(fs, f);
      assert Climb(fs, f, 0) == Some(f);
      assert Climb(fs, p, rank[f] - 1) == Climb(fs, f, rank[f]) == None;
    }
    assert Ranked(fs, rank);
  }

  ghost function WalkBound(fs: Folders, f: Id): (n: nat)
    requires WalkEnds(fs, f)
    ensures Climb(fs, f, n) == None
  {
    var n: nat :| Climb(fs, f, n) == None; n
  }

  // ----- What a recursion reaches -----

  /** Some number of steps up from `x` arrives at `f`. */
  ghost predicate Reaches(fs: Folders, x: Id, f: Id) {
    exists n: nat :: Climb(fs, x, n) == Some(f)
  }

  lemma ReachesItself(fs: Folders, x: Id)
    requires x in fs
    ensures Reaches(fs, x, x)
  {
    assert Climb(fs, x, 0) == Some(x);
  }

  lemma {:induction false} ClimbOneMore(fs: Folders, x: Id, n: nat)
    ensures Climb(fs, x, n).Some? && HasParent(fs, Climb(fs, x, n).value) ==>
              Climb(fs, x, n + 1) == Some(ParentOf(fs, Climb(fs, x, n).value))
    ensures Climb(fs, x, n).Some? ==> Climb(fs, x, n).value in fs
    decreases n
  {
    if n > 0 && HasParent(fs, x) {
      ClimbOneMore(fs, ParentOf(fs, x), n - 1);
    } else if n == 0 && HasParent(fs, x) {
      assert Climb(fs, ParentOf(fs, x), 0) == Some(ParentOf(fs, x));
    }
  }

  lemma {:induction false} ReachesIffUnder(fs: Folders, x: Id, f: Id)
    requires Acyclic(fs) && x in fs
    ensures Reaches(fs, x, f) <==> Under(fs, x, f)
    decreases RankOf(fs)[x]
  {
    if x == f {
      ReachesItself(fs, x);
    } else if HasParent(fs, x) {
      var p := ParentOf(fs, x);
      ReachesIffUnder(fs, p, f);
      if Reaches(fs, p, f) {
        var n: nat :| Climb(fs, p, n) == Some(f);
        assert Climb(fs, x, n + 1) == Some(f);
      }
      if Reaches(fs, x, f) {
        var n: nat :| Climb(fs, x, n) == Some(f);
        assert Climb(fs, p, n - 1) == Some(f);
      }
    }
  }

  function FoldersOf(folders: Folders, owners: set<Id>): set<Id> {
    set f | f in folders && folders[f].dataset in owners
  }

  /** The folders on the ways up from `roots`, a part of the collection that every way up stays in. */
  ghost function Above(fs: Folders, roots: set<Id>): Folders {
    map x | x in fs && OnTheWay(fs, roots, x) :: fs[x]
  }

  ghost predicate OnTheWay(fs: Folders, roots: set<Id>, x: Id) {
    exists r :: r in roots && Reaches(fs, r, x)
  }

  /** `gs` is a part of `fs` that no parent link leaves. */
  ghost predicate UpClosed(fs: Folders, gs: Folders) {
    && (forall x :: x in gs ==> x in fs && fs[x] == gs[x])
    && (forall x :: x in gs && HasParent(fs, x) ==> ParentOf(fs, x) in gs)
  }

  lemma AboveIsUpClosed(fs: Folders, roots: set<Id>)
    ensures UpClosed(fs, Above(fs, roots))
    ensures forall r :: r in roots && r in fs ==> r in Above(fs, roots)
  {
    forall x | x in Above(fs, roots) && HasParent(fs, x) ensures ParentOf(fs, x) in Above(fs, roots) {
      var r :| r in roots && Reaches(fs, r, x);
      var n: nat :| Climb(fs, r, n) == Some(x);
      ClimbOneMore(fs, r, n);
      assert Reaches(fs, r, ParentOf(fs, x));
    }
    forall r | r in roots && r in fs ensures r in Above(fs, roots) {
      ReachesItself(fs, r);
    }
  }

  lemma {:induction false} ClimbsAgree(fs: Folders, gs: Folders, x: Id, n: nat)
    requires UpClosed(fs, gs) && x in gs
    ensures Climb(fs, x, n) == Climb(gs, x, n)
    decreases n
  {
    if n > 0 && HasParent(fs, x) {
      ClimbsAgree(fs, gs, ParentOf(fs, x), n - 1);
    }
  }

  lemma SameWalks(fs: Folders, gs: Folders, x: Id)
    requires UpClosed(fs, gs) && x in gs
    ensures forall f :: Reaches(fs, x, f) <==> Reaches(gs, x, f)
    ensures WalkEnds(fs, x) <==> WalkEnds(gs, x)
  {
    forall n: nat ensures Climb(fs, x, n) == Climb(gs, x, n) {
      ClimbsAgree(fs, gs, x, n);
    }
  }

  lemma {:induction false} WalkEndsFurtherUp(fs: Folders, r: Id, n: nat, x: Id)
    requires Climb(fs, r, n) == Some(x) && WalkEnds(fs, r)
    ensures WalkEnds(fs, x)
    decreases n
  {
    if n > 0 {
      var m: nat :| Climb(fs, r, m) == None;
      ClimbStaysOut(fs, r, m, m + 1);
      assert Climb(fs, ParentOf(fs, r), m) == None;
      WalkEndsFurtherUp(fs, ParentOf(fs, r), n - 1, x);
    }
  }

  /** It is a forest exactly when the walk from every root ends, whatever the rest of the collection. */
  lemma AboveAcyclicIff(fs: Folders, roots: set<Id>)
    ensures Acyclic(Above(fs, roots)) <==> forall r :: r in roots && r in fs ==> WalkEnds(fs, r)
  {
    var gs := Above(fs, roots);
    AboveIsUpClosed(fs, roots);
    AcyclicIffEveryWalkEnds(gs);
    forall x | x in gs ensures WalkEnds(fs, x) <==> WalkEnds(gs, x) {
      SameWalks(fs, gs, x);
    }
    if forall r :: r in roots && r in fs ==> WalkEnds(fs, r) {
      forall x | x in gs ensures WalkEnds(fs, x) {
        var r :| r in roots && Reaches(fs, r, x);
        var n: nat :| Climb(fs, r, n) == Some(x);
        WalkEndsFurtherUp(fs, r, n, x);
      }
    }
  }

  /** A part of a forest that no parent link leaves is a forest with the same chains. */
  lemma UpClosedInForest(fs: Folders, gs: Folders)
    requires Acyclic(fs) && UpClosed(fs, gs)
    ensures Acyclic(gs) && (Closed(fs) ==> Closed(gs))
    ensures forall x :: x in gs ==> Chain(gs, x) == Chain(fs, x)
  {
    var rank := map x | x in gs :: RankOf(fs)[x];
    assert forall x :: HasParent(gs, x) ==> HasParent(fs, x);
    assert Ranked(gs, rank);
    forall x | x in gs ensures Chain(gs, x) == Chain(fs, x) {
      ChainsAgree(fs, gs, gs.Keys, x);
    }
  }

  /** No folder on the way up from `f` names a parent that is gone. */
  ghost predicate Rooted(fs: Folders, f: Id)
    requires Acyclic(fs)
  {
    f in fs && forall g :: Under(fs, f, g) && fs[g].parent.Some? ==> fs[g].parent.value in fs
  }

  lemma RootedUnfolds(fs: Folders, f: Id)
    requires Acyclic(fs) && f in fs
    ensures Rooted(fs, f) <==> fs[f].parent.None? || (HasParent(fs, f) && Rooted(fs, ParentOf(fs, f)))
  {
    assert Under(fs, f, f);
    if HasParent(fs, f) {
      assert forall g :: Under(fs, f, g) <==> g == f || Under(fs, ParentOf(fs, f), g);
    }
  }

  lemma ClosedIffRooted(fs: Folders)
    requires Acyclic(fs)
    ensures Closed(fs) <==> forall f :: f in fs ==> Rooted(fs, f)
  {
    forall f | f in fs && Rooted(fs, f) ensures fs[f].parent.Some? ==> fs[f].parent.value in fs {
      assert Under(fs, f, f);
    }
  }

  // ----- Adding, moving, removing -----

  /** A new folder under an existing parent (or none) never closes a cycle. */
  lemma AddingKeepsAcyclic(fs: Folders, id: Id, folder: Folder)
    requires Acyclic(fs) && Closed(fs) && id !in fs
    requires folder.parent.Some? ==> folder.parent.value in fs
    ensures Acyclic(fs[id := folder]) && Closed(fs[id := folder])
  {
    var rank := RankOf(fs);
    var top := if folder.parent.Some? then rank[folder.parent.value] + 1 else 0;
    var gs, ranked := fs[id := folder], rank[id := top];
    forall f | HasParent(gs, f) ensures ranked[ParentOf(gs, f)] < ranked[f] {
      assert f != id ==> HasParent(fs, f) && ParentOf(fs, f) == ParentOf(gs, f);
    }
    assert Ranked(gs, ranked);
  }

  function Moved(fs: Folders, f: Id, p: Id): Folders
    requires f in fs
  {
    fs[f := fs[f].(parent := Some(p))]
  }

  lemma {:induction false} MoveBelowItselfIsACycle(fs: Folders, f: Id, x: Id, rank: map<Id, nat>)
    requires Acyclic(fs) && Under(fs, x, f)
    requires rank.Keys == fs.Keys && forall y :: HasParent(fs, y) && y != f ==> rank[ParentOf(fs, y)] < rank[y]
    ensures rank[f] <= rank[x]
    decreases RankOf(fs)[x]
  {
    if x != f {
      RankDropsUpTheChain(fs, x, f);
      MoveBelowItselfIsACycle(fs, f, ParentOf(fs, x), rank);
    }
  }

  /** Moving a folder keeps the forest acyclic exactly when the new parent is neither the folder
      itself nor one of its descendants. The route makes no such check. */
  lemma MoveKeepsAcyclicIff(fs: Folders, f: Id, p: Id)
    requires Acyclic(fs) && f in fs && p in fs
    ensures Acyclic(Moved(fs, f, p)) <==> !Under(fs, p, f)
  {
    var gs := Moved(fs, f, p);
    if Under(fs, p, f) && Acyclic(gs) {
      var rank := RankOf(gs);
      assert HasParent(gs, f);
      forall y | HasParent(fs, y) && y != f ensures rank[ParentOf(fs, y)] < rank[y] {
        assert HasParent(gs, y);
      }
      MoveBelowItselfIsACycle(fs, f, p, rank);
    }
    if !Under(fs, p, f) {
      var rank := RankOf(fs);
      var lifted := map x | x in fs :: if Under(fs, x, f) then rank[x] + rank[p] + 1 else rank[x];
      forall x | HasParent(gs, x) ensures lifted[ParentOf(gs, x)] < lifted[x] {
        if x != f {
          assert HasParent(fs, x) && ParentOf(gs, x) == ParentOf(fs, x);
          assert Chain(fs, x) == Chain(fs, ParentOf(fs, x)) + [x];
          assert Under(fs, x, f) <==> Under(fs, ParentOf(fs, x), f);
        } else {
          assert Under(fs, f, f);
        }
      }
      assert Ranked(gs, lifted);
    }
  }

  /** `doomed` contains the descendants of its members. */
  ghost predicate DownClosed(fs: Folders, doomed: set<Id>) {
    forall x :: HasParent(fs, x) && ParentOf(fs, x) in doomed ==> x in doomed
  }

  lemma RemovingKeepsAcyclic(fs: Folders, doomed: set<Id>)
    requires Acyclic(fs)
    ensures Acyclic(fs - doomed)
  {
    var rank := RankOf(fs);
    assert forall x :: HasParent(fs - doomed, x) ==> HasParent(fs, x);
    assert Ranked(fs - doomed, rank - doomed);
  }

  /** Removing whole subtrees makes no orphan and changes no remaining walk. */
  lemma RemovingSubtrees(fs: Folders, doomed: set<Id>)
    requires Acyclic(fs) && DownClosed(fs, doomed)
    ensures Acyclic(fs - doomed) && (Closed(fs) ==> Closed(fs - doomed))
    ensures forall x :: x in fs - doomed ==> Chain(fs - doomed, x) == Chain(fs, x)
    ensures forall f :: f !in doomed ==> Subtree(fs - doomed, f) == Subtree(fs, f) - doomed
  {
    RemovingKeepsAcyclic(fs, doomed);
    var gs := fs - doomed;
    forall x | x in gs ensures Chain(gs, x) == Chain(fs, x) {
      assert forall y :: y in gs && HasParent(fs, y) ==> ParentOf(fs, y) in gs;
      ChainsAgree(fs, gs, gs.Keys, x);
    }
    assert forall x, f :: x in gs ==> (Under(gs, x, f) <==> Under(fs, x, f));
  }

  lemma SubtreeDownClosed(fs: Folders, f: Id)
    requires Acyclic(fs)
    ensures DownClosed(fs, Subtree(fs, f))
  {
  }

  /** A subtree is the folder and the subtrees of its children. */
  lemma SubtreeUnfolds(fs: Folders, f: Id, x: Id)
    requires Acyclic(fs) && f in fs
    ensures Under(fs, x, f) <==>
            x == f || exists c :: HasParent(fs, c) && ParentOf(fs, c) == f && Under(fs, x, c)
  {
    if Under(fs, x, f) && x != f {
      var c := ChildTowards(fs, x, f);
    }
    forall c | HasParent(fs, c) && ParentOf(fs, c) == f && Under(fs, x, c) ensures Under(fs, x, f) {
      assert Under(fs, f, f) && Under(fs, c, f);
      UnderTransitive(fs, x, c, f);
    }
  }

  lemma {:induction false} ChildTowards(fs: Folders, x: Id, f: Id) returns (c: Id)
    requires Acyclic(fs) && Under(fs, x, f) && x != f
    ensures HasParent(fs, c) && ParentOf(fs, c) == f && Under(fs, x, c)
    decreases RankOf(fs)[x]
  {
    RankDropsUpTheChain(fs, x, f);
    if ParentOf(fs, x) == f {
      c := x;
    } else {
      c := ChildTowards(fs, ParentOf(fs, x), f);
    }
  }

  // ----- Deleting a subtree child by child -----

  /** The answer of the query for child folders, which also names the dataset. */
  function Children(fs: Folders, d: Id, p: Id): set<Id> {
    set c | c in fs && fs[c].dataset == d && fs[c].parent == Some(p)
  }

  /** The collection as a recursion over these queries sees it: folders of other datasets hang nowhere. */
  function Seen(fs: Folders, d: Id): Folders {
    map x | x in fs :: if fs[x].dataset == d then fs[x] else fs[x].(parent := None)
  }

  function Kids(fs: Folders, p: Id): set<Id> {
    set c | c in fs && fs[c].parent == Some(p)
  }

  /** The folder `f` and what the recursion reaches from it. */
  ghost function ReachedFrom(fs: Folders, d: Id, f: Id): set<Id> {
    set x | x in fs && Reaches(Seen(fs, d), x, f)
  }

  /** The recursion comes back to the folder it started from, and never ends. */
  ghost predicate ComesBack(fs: Folders, d: Id, f: Id) {
    exists n: nat :: n > 0 && Climb(Seen(fs, d), f, n) == Some(f)
  }

  /** A forest `gs` in which the recursion moves: it answers every query from inside. */
  ghost predicate Answering(fs: Folders, d: Id, gs: Folders) {
    Acyclic(gs) && gs.Keys <= fs.Keys && forall p :: p in gs ==> Children(fs, d, p) == Kids(gs, p)
  }

  /** What the recursion from `f` moves in. */
  ghost function Cone(fs: Folders, d: Id, f: Id): Folders {
    map x | x in ReachedFrom(fs, d, f) :: if x == f then fs[x].(parent := None) else fs[x]
  }

  ghost function Least(fs: Folders, x: Id, f: Id, n: nat): (m: nat)
    requires Climb(fs, x, n) == Some(f)
    ensures Climb(fs, x, m) == Some(f) && forall k: nat :: Climb(fs, x, k) == Some(f) ==> m <= k
  {
    if k: nat :| k < n && Climb(fs, x, k) == Some(f) then Least(fs, x, f, k) else n
  }

  ghost function StepsTo(fs: Folders, x: Id, f: Id): (m: nat)
    requires Reaches(fs, x, f)
    ensures Climb(fs, x, m) == Some(f) && forall k: nat :: Climb(fs, x, k) == Some(f) ==> m <= k
  {
    var n: nat :| Climb(fs, x, n) == Some(f);
    Least(fs, x, f, n)
  }

  lemma ConeIsAcyclic(fs: Folders, d: Id, f: Id)
    ensures Acyclic(Cone(fs, d, f))
  {
    var gs, seen := Cone(fs, d, f), Seen(fs, d);
    var rank := map x | x in gs :: StepsTo(seen, x, f);
    forall x | HasParent(gs, x) ensures rank[ParentOf(gs, x)] < rank[x] {
      var n := StepsTo(seen, x, f);
      assert x != f && Climb(seen, x, 0) == Some(x) && n > 0;
      assert Climb(seen, ParentOf(seen, x), n - 1) == Some(f);
      assert ParentOf(gs, x) == ParentOf(seen, x);
    }
    assert Ranked(gs, rank);
  }

  /** The recursion from a folder it does not come back to moves in a forest, whatever the rest of the
      collection, and reaches all of it. */
  lemma ConeAnswers(fs: Folders, d: Id, f: Id)
    requires f in fs && !ComesBack(fs, d, f)
    ensures var gs := Cone(fs, d, f); Answering(fs, d, gs) && f in gs && Subtree(gs, f) == ReachedFrom(fs, d, f)
  {
    var gs, seen := Cone(fs, d, f), Seen(fs, d);
    ConeIsAcyclic(fs, d, f);
    ReachesItself(seen, f);
    forall p | p in gs ensures Children(fs, d, p) == Kids(gs, p) {
      ConeKids(fs, d, f, p);
    }
    forall x | x in gs ensures Under(gs, x, f) {
      ConeUnder(fs, d, f, x, StepsTo(seen, x, f));
    }
  }

  lemma ConeKids(fs: Folders, d: Id, f: Id, p: Id)
    requires f in fs && !ComesBack(fs, d, f) && p in Cone(fs, d, f)
    ensures Children(fs, d, p) == Kids(Cone(fs, d, f), p)
  {
    var seen := Seen(fs, d);
    forall c | c in Children(fs, d, p) ensures c in Kids(Cone(fs, d, f), p) {
      var n: nat :| Climb(seen, p, n) == Some(f);
      assert HasParent(seen, c) && ParentOf(seen, c) == p;
      assert Climb(seen, c, n + 1) == Some(f);
    }
    forall c | c in Kids(Cone(fs, d, f), p) ensures c in Children(fs, d, p) {
      assert c != f && Climb(seen, c, 0) == Some(c);
      var n: nat :| Climb(seen, c, n) == Some(f);
      assert HasParent(seen, c);
    }
  }

  lemma {:induction false} ConeUnder(fs: Folders, d: Id, f: Id, x: Id, n: nat)
    requires Acyclic(Cone(fs, d, f)) && x in Cone(fs, d, f) && Climb(Seen(fs, d), x, n) == Some(f)
    ensures Under(Cone(fs, d, f), x, f)
    decreases n
  {
    if x != f {
      var p := ParentOf(Seen(fs, d), x);
      assert Climb(Seen(fs, d), p, n - 1) == Some(f);
      ConeUnder(fs, d, f, p, n - 1);
      assert HasParent(Cone(fs, d, f), x) && ParentOf(Cone(fs, d, f), x) == p;
    }
  }

  lemma SeenIsAcyclic(fs: Folders, d: Id)
    requires Acyclic(fs)
    ensures Acyclic(Seen(fs, d))
  {
    assert forall x :: HasParent(Seen(fs, d), x) ==> HasParent(fs, x) && ParentOf(Seen(fs, d), x) == ParentOf(fs, x);
    assert Ranked(Seen(fs, d), RankOf(fs));
  }

  lemma {:induction false} ClimbDropsRank(fs: Folders, x: Id, n: nat)
    requires Acyclic(fs)
    ensures Climb(fs, x, n).Some? ==> x in fs && Climb(fs, x, n).value in fs &&
                                      RankOf(fs)[Climb(fs, x, n).value] + n <= RankOf(fs)[x]
    decreases n
  {
    if n > 0 && HasParent(fs, x) {
      ClimbDropsRank(fs, ParentOf(fs, x), n - 1);
    }
  }

  /** In a forest no recursion comes back. */
  lemma NoneComesBack(fs: Folders, d: Id, f: Id)
    requires Acyclic(fs)
    ensures !ComesBack(fs, d, f)
  {
    SeenIsAcyclic(fs, d);
    forall n: nat | n > 0 ensures Climb(Seen(fs, d), f, n) != Some(f) {
      ClimbDropsRank(Seen(fs, d), f, n);
    }
  }

  /** Where parent links stay inside datasets, the recursion sees all of a subtree of its dataset and
      nothing below a folder of another. */
  lemma ReachedInOneDataset(fs: Folders, d: Id, f: Id)
    requires Acyclic(fs) && OneDataset(fs) && f in fs
    ensures !ComesBack(fs, d, f)
    ensures ReachedFrom(fs, d, f) == if fs[f].dataset == d then Subtree(fs, f) else {f}
  {
    NoneComesBack(fs, d, f);
    SeenIsAcyclic(fs, d);
    forall x | x in fs ensures Reaches(Seen(fs, d), x, f) <==> (if fs[f].dataset == d then Under(fs, x, f) else x == f) {
      ReachesIffUnder(Seen(fs, d), x, f);
      SeenUnder(fs, d, x, f);
    }
  }

  lemma {:induction false} SeenUnder(fs: Folders, d: Id, x: Id, f: Id)
    requires Acyclic(fs) && Acyclic(Seen(fs, d)) && OneDataset(fs) && x in fs && f in fs
    ensures Under(Seen(fs, d), x, f) <==> (if fs[f].dataset == d then Under(fs, x, f) else x == f)
    decreases RankOf(fs)[x]
  {
    if HasParent(fs, x) {
      SeenUnder(fs, d, ParentOf(fs, x), f);
      if Under(fs, x, f) {
        ChainInOneDataset(fs, x, f);
      }
    }
  }

  ghost function Subtrees(fs: Folders, roots: set<Id>): set<Id>
    requires Acyclic(fs)
  {
    set x | x in fs && exists r :: r in roots && Under(fs, x, r)
  }

  lemma SubtreesGrow(fs: Folders, roots: set<Id>, c: Id)
    requires Acyclic(fs)
    ensures Subtrees(fs, roots + {c}) == Subtrees(fs, roots) + Subtree(fs, c)
    ensures DownClosed(fs, Subtrees(fs, roots))
  {
    forall x | x in Subtrees(fs, roots) + Subtree(fs, c) ensures x in Subtrees(fs, roots + {c}) {
      if x in Subtree(fs, c) {
        assert c in roots + {c} && Under(fs, x, c);
      } else {
        var r :| r in roots && Under(fs, x, r);
        assert r in roots + {c};
      }
    }
    forall x | HasParent(fs, x) && ParentOf(fs, x) in Subtrees(fs, roots) ensures x in Subtrees(fs, roots) {
      var r :| r in roots && Under(fs, ParentOf(fs, x), r);
      assert Under(fs, x, r);
    }
  }

  lemma SiblingsApart(fs: Folders, p: Id, b: Id, c: Id, x: Id)
    requires Acyclic(fs) && p in fs && b in Kids(fs, p) && c in Kids(fs, p) && b != c
    ensures !(Under(fs, x, b) && Under(fs, x, c))
  {
    if Under(fs, x, b) && Under(fs, x, c) {
      assert HasParent(fs, b) && HasParent(fs, c);
      UnderComparable(fs, x, b, c);
      assert Under(fs, p, p) && Under(fs, b, p) && Under(fs, c, p);
      if Under(fs, b, c) {
        RankDropsUpTheChain(fs, b, c);
        UnderAntisymmetric(fs, p, c);
      } else {
        RankDropsUpTheChain(fs, c, b);
        UnderAntisymmetric(fs, p, b);
      }
      assert false;
    }
  }

  /** What is left of the subtree of `c` once the subtrees of some siblings are gone: all of it. */
  lemma SiblingsLeaveSubtree(fs: Folders, p: Id, done: set<Id>, c: Id)
    requires Acyclic(fs) && p in fs && done <= Kids(fs, p) && c in Kids(fs, p) && c !in done
    ensures var gs := fs - Subtrees(fs, done);
            Acyclic(gs) && c in gs && Subtree(gs, c) == Subtree(fs, c)
  {
    SubtreesGrow(fs, done, c);
    RemovingSubtrees(fs, Subtrees(fs, done));
    assert Under(fs, c, c);
    forall x | Under(fs, x, c) ensures x !in Subtrees(fs, done) {
      if x in Subtrees(fs, done) {
        var b :| b in done && Under(fs, x, b);
        SiblingsApart(fs, p, b, c, x);
      }
    }
    assert Subtree(fs - Subtrees(fs, done), c) == Subtree(fs, c);
  }

  /** The subtree without its root is the subtrees of the children. */
  lemma StrictSubtree(fs: Folders, p: Id)
    requires Acyclic(fs) && p in fs
    ensures Subtree(fs, p) - {p} == Subtrees(fs, Kids(fs, p))
  {
    forall x ensures x in Subtree(fs, p) - {p} <==> x in Subtrees(fs, Kids(fs, p)) {
      SubtreeUnfolds(fs, p, x);
      if x in Subtree(fs, p) - {p} {
        var c :| HasParent(fs, c) && ParentOf(fs, c) == p && Under(fs, x, c);
        assert c in Kids(fs, p);
      }
      if x in Subtrees(fs, Kids(fs, p)) {
        var c :| c in Kids(fs, p) && Under(fs, x, c);
        assert HasParent(fs, c) && ParentOf(fs, c) == p;
        if x == p {
          assert RankOf(fs)[p] < RankOf(fs)[c];
          RankDropsUpTheChain(fs, p, c);
        }
      }
    }
  }

  lemma ChildSubtreeSmaller(fs: Folders, c: Id)
    requires Acyclic(fs) && HasParent(fs, c)
    ensures Subtree(fs, c) < Subtree(fs, ParentOf(fs, c))
  {
    var p := ParentOf(fs, c);
    assert Under(fs, p, p) && Under(fs, c, c) && Under(fs, c, p);
    forall x | Under(fs, x, c) ensures Under(fs, x, p) {
      UnderTransitive(fs, x, c, p);
    }
    if Under(fs, p, c) {
      UnderAntisymmetric(fs, p, c);
      assert false;
    }
    assert p in Subtree(fs, p) && p !in Subtree(fs, c);
  }

  /** What is left of the forest once some siblings are gone answers the queries that are left. */
  lemma StillAnswering(fs: Folders, d: Id, gs: Folders, p: Id, done: set<Id>, c: Id)
    requires Answering(fs, d, gs) && p in gs && done <= Kids(gs, p) && c in Kids(gs, p) && c !in done
    ensures var gone := Subtrees(gs, done);
            Answering(fs - gone, d, gs - gone) && c in gs - gone && Subtree(gs - gone, c) == Subtree(gs, c)
    ensures Subtrees(gs, done + {c}) == Subtrees(gs, done) + Subtree(gs, c)
  {
    var gone := Subtrees(gs, done);
    SiblingsLeaveSubtree(gs, p, done, c);
    SubtreesGrow(gs, done, c);
    forall q | q in gs - gone ensures Children(fs - gone, d, q) == Kids(gs - gone, q) {
      assert Children(fs - gone, d, q) == Children(fs, d, q) - gone;
      assert Kids(gs - gone, q) == Kids(gs, q) - gone;
    }
  }

  lemma NoChildLeft(fs: Folders, d: Id, gs: Folders, p: Id)
    requires Answering(fs, d, gs) && p in gs
    ensures Children(fs - Subtrees(gs, Kids(gs, p)), d, p) == {}
  {
    forall c | c in Children(fs, d, p) ensures c in Subtrees(gs, Kids(gs, p)) {
      assert Under(gs, c, c);
    }
  }
}
