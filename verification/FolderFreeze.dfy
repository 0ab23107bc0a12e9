/** Freezing the folders of a dataset: a recursion up the parents that remembers what it has
    frozen, driven by a loop that freezes every listed folder whether remembered or not. */
module FolderFreeze {
  import opened Types
  import opened Forest
  import opened Paths

  /** The frozen folders, the id counter and `parent_id_map`. */
  datatype Freezing = Freezing(frozen: Folders, next: Id, memo: map<Id, Id>)

  /** The effect of freezing one folder: its parent first unless remembered, then a new copy. */
  ghost function FreezeFolder(fs: Folders, f: Id, fd: Id, s: Freezing): (t: Freezing)
    requires Acyclic(fs) && Rooted(fs, f)
    ensures f in t.memo && s.memo.Keys <= t.memo.Keys
    decreases RankOf(fs)[f]
  {
    RootedUnfolds(fs, f);
    if fs[f].parent.None? then
      Insert(fs, f, fd, None, s)
    else
      var p := fs[f].parent.value;
      var above := if p in s.memo then s else FreezeFolder(fs, p, fd, s);
      Insert(fs, f, fd, Some(above.memo[p]), above)
  }

  lemma FreezeFolderUnfolds(fs: Folders, f: Id, fd: Id, s: Freezing)
    requires Acyclic(fs) && f in fs
    ensures fs[f].parent.None? ==> Rooted(fs, f) && FreezeFolder(fs, f, fd, s) == Insert(fs, f, fd, None, s)
    ensures fs[f].parent.Some? && !HasParent(fs, f) ==> !Rooted(fs, f)
    ensures HasParent(fs, f) ==>
              var p := ParentOf(fs, f);
              && RankOf(fs)[p] < RankOf(fs)[f]
              && (Rooted(fs, f) <==> Rooted(fs, p))
              && (Rooted(fs, f) && p in s.memo ==> FreezeFolder(fs, f, fd, s) == Insert(fs, f, fd, Some(s.memo[p]), s))
              && (Rooted(fs, f) && p !in s.memo ==>
                    var above := FreezeFolder(fs, p, fd, s);
                    FreezeFolder(fs, f, fd, s) == Insert(fs, f, fd, Some(above.memo[p]), above))
  {
    RootedUnfolds(fs, f);
  }

  /** The copy of `f` under the frozen parent, remembered. */
  function Insert(fs: Folders, f: Id, fd: Id, parent: Option<Id>, s: Freezing): Freezing
    requires f in fs
  {
    Freezing(s.frozen[s.next := Folder(fs[f].name, fd, parent, Some(f))], s.next + 1, s.memo[f := s.next])
  }

  /** The loop over the listing. */
  ghost function FreezeListed(fs: Folders, order: seq<Id>, fd: Id, s: Freezing): Freezing
    requires Acyclic(fs) && forall f :: f in order ==> Rooted(fs, f)
  {
    if order == [] then s
    else FreezeFolder(fs, order[|order| - 1], fd, FreezeListed(fs, order[..|order| - 1], fd, s))
  }

  /** The loop has frozen the first `done` folders of the listing. */
  ghost predicate FrozenUpTo(fs: Folders, order: seq<Id>, done: nat, fd: Id, s: Freezing, t: Freezing) {
    && Acyclic(fs) && done <= |order| && (forall f :: f in order[..done] ==> Rooted(fs, f))
    && (forall g :: g in t.memo ==> Rooted(fs, g))
    && t == FreezeListed(fs, order[..done], fd, s)
  }

  lemma NoneFrozenYet(fs: Folders, order: seq<Id>, fd: Id, s: Freezing)
    requires Acyclic(fs) && s.memo == map[]
    ensures FrozenUpTo(fs, order, 0, fd, s, s)
  {
  }

  lemma UpToIsRooted(fs: Folders, order: seq<Id>, done: nat, fd: Id, s: Freezing, t: Freezing)
    requires FrozenUpTo(fs, order, done, fd, s, t)
    ensures Acyclic(fs) && forall g :: g in t.memo ==> Rooted(fs, g)
  {
  }

  lemma OneMoreFrozen(fs: Folders, order: seq<Id>, done: nat, fd: Id, s: Freezing, t: Freezing, u: Freezing)
    requires FrozenUpTo(fs, order, done, fd, s, t) && done < |order| && Rooted(fs, order[done])
    requires u == FreezeFolder(fs, order[done], fd, t) && forall g :: g in u.memo ==> Rooted(fs, g)
    ensures FrozenUpTo(fs, order, done + 1, fd, s, u)
  {
    assert order[..done + 1][..done] == order[..done];
  }

  // ----- What a copy is -----

  /** `k` is a faithful copy in release `fd`: same name, and its parent is a copy, made earlier and
      in the same release, of its origin's parent. */
  ghost predicate IsCopy(fs: Folders, fd: Id, frozen: Folders, k: Id)
    requires k in frozen
  {
    var c := frozen[k];
    && c.dataset == fd && c.origin.Some? && c.origin.value in fs
    && c.name == fs[c.origin.value].name
    && match fs[c.origin.value].parent
       case None => c.parent == None
       case Some(p) => c.parent.Some? && CopyOf(frozen, fd, c.parent.value, p) && c.parent.value < k
  }

  ghost predicate CopyOf(frozen: Folders, fd: Id, k: Id, f: Id) {
    k in frozen && frozen[k].dataset == fd && frozen[k].origin == Some(f)
  }

  ghost function Copies(frozen: Folders, fd: Id, f: Id): set<Id> {
    set k | k in frozen && CopyOf(frozen, fd, k, f)
  }

  /** What holds between any two steps of the freeze. In particular the memory is closed under
      parents: this is what bounds the number of copies. */
  ghost predicate Faithful(fs: Folders, fd: Id, s: Freezing) {
    && (forall k :: k in s.frozen ==> k < s.next)
    && (forall f :: f in s.memo ==> f in fs && CopyOf(s.frozen, fd, s.memo[f], f))
    && (forall f :: f in s.memo && HasParent(fs, f) ==> ParentOf(fs, f) in s.memo)
    && (forall k :: k in s.frozen && s.frozen[k].dataset == fd ==>
          IsCopy(fs, fd, s.frozen, k) && s.frozen[k].origin.value in s.memo)
  }

  /** The old records are kept as they are and new ids are above the old counter. */
  ghost predicate Extends(s: Freezing, t: Freezing) {
    && s.next <= t.next
    && (forall k :: k in s.frozen ==> k in t.frozen && t.frozen[k] == s.frozen[k])
    && (forall k :: k in t.frozen && k !in s.frozen ==> s.next <= k < t.next)
  }

  lemma StaysCopy(fs: Folders, fd: Id, frozen: Folders, more: Folders, k: Id)
    requires k in frozen && IsCopy(fs, fd, frozen, k)
    requires forall j :: j in frozen ==> j in more && more[j] == frozen[j]
    ensures IsCopy(fs, fd, more, k)
  {
  }

  lemma InsertExtends(fs: Folders, f: Id, fd: Id, parent: Option<Id>, s: Freezing)
    requires f in fs && forall k :: k in s.frozen ==> k < s.next
    ensures Extends(s, Insert(fs, f, fd, parent, s))
  {
  }

  lemma InsertIsFaithful(fs: Folders, f: Id, fd: Id, parent: Option<Id>, s: Freezing)
    requires f in fs && Faithful(fs, fd, s)
    requires match fs[f].parent
             case None => parent == None
             case Some(p) => p in s.memo && parent == Some(s.memo[p])
    ensures Faithful(fs, fd, Insert(fs, f, fd, parent, s)) && Extends(s, Insert(fs, f, fd, parent, s))
  {
    var t := Insert(fs, f, fd, parent, s);
    InsertExtends(fs, f, fd, parent, s);
    forall k | k in t.frozen && t.frozen[k].dataset == fd
      ensures IsCopy(fs, fd, t.frozen, k) && t.frozen[k].origin.value in t.memo {
      if k != s.next {
        StaysCopy(fs, fd, s.frozen, t.frozen, k);
      }
    }
    forall g | g in t.memo ensures g in fs && CopyOf(t.frozen, fd, t.memo[g], g) {
      if g != f {
        assert CopyOf(s.frozen, fd, s.memo[g], g);
      }
    }
  }

  lemma {:induction false} MemoHoldsChains(fs: Folders, fd: Id, s: Freezing, f: Id, g: Id)
    requires Acyclic(fs) && Faithful(fs, fd, s) && f in s.memo && Under(fs, f, g)
    ensures g in s.memo
    decreases RankOf(fs)[f]
  {
    if f != g {
      RankDropsUpTheChain(fs, f, g);
      MemoHoldsChains(fs, fd, s, ParentOf(fs, f), g);
    }
  }

  /** Freezing one folder keeps the copies faithful and remembers the whole chain. */
  lemma {:induction false} FreezeFolderIsFaithful(fs: Folders, f: Id, fd: Id, s: Freezing)
    requires Acyclic(fs) && Rooted(fs, f) && Faithful(fs, fd, s)
    ensures Faithful(fs, fd, FreezeFolder(fs, f, fd, s)) && Extends(s, FreezeFolder(fs, f, fd, s))
    ensures forall g :: g in FreezeFolder(fs, f, fd, s).memo <==> g in s.memo || Under(fs, f, g)
    decreases RankOf(fs)[f]
  {
    RootedUnfolds(fs, f);
    if fs[f].parent.None? {
      InsertIsFaithful(fs, f, fd, None, s);
    } else {
      var p := fs[f].parent.value;
      assert HasParent(fs, f);
      assert forall g :: Under(fs, f, g) <==> g == f || Under(fs, p, g);
      if p in s.memo {
        forall g | Under(fs, p, g) ensures g in s.memo {
          MemoHoldsChains(fs, fd, s, p, g);
        }
        InsertIsFaithful(fs, f, fd, Some(s.memo[p]), s);
      } else {
        FreezeFolderIsFaithful(fs, p, fd, s);
        var above := FreezeFolder(fs, p, fd, s);
        InsertIsFaithful(fs, f, fd, Some(above.memo[p]), above);
      }
    }
  }

  lemma InsertCounts(fs: Folders, f: Id, fd: Id, parent: Option<Id>, s: Freezing, g: Id)
    requires f in fs && s.next !in s.frozen
    ensures |Copies(Insert(fs, f, fd, parent, s).frozen, fd, g)| ==
            |Copies(s.frozen, fd, g)| + if g == f then 1 else 0
  {
    InsertCopies(fs, f, fd, parent, s, g);
  }

  lemma InsertCopies(fs: Folders, f: Id, fd: Id, parent: Option<Id>, s: Freezing, g: Id)
    requires f in fs && s.next !in s.frozen
    ensures s.next !in Copies(s.frozen, fd, g)
    ensures Copies(Insert(fs, f, fd, parent, s).frozen, fd, g) ==
            if g == f then Copies(s.frozen, fd, g) + {s.next} else Copies(s.frozen, fd, g)
  {
    var frozen := Insert(fs, f, fd, parent, s).frozen;
    forall k ensures k in Copies(frozen, fd, g) <==> k in Copies(s.frozen, fd, g) || (k == s.next && g == f) {
      assert CopyOf(frozen, fd, k, g) <==> CopyOf(s.frozen, fd, k, g) || (k == s.next && g == f);
    }
  }

  /** Freezing one folder adds one copy of it and one of every ancestor not yet remembered. */
  lemma {:induction false} FreezeFolderCounts(fs: Folders, f: Id, fd: Id, s: Freezing, g: Id)
    requires Acyclic(fs) && Rooted(fs, f) && Faithful(fs, fd, s)
    ensures |Copies(FreezeFolder(fs, f, fd, s).frozen, fd, g)| ==
            |Copies(s.frozen, fd, g)| + if g == f || (Under(fs, f, g) && g !in s.memo) then 1 else 0
    decreases RankOf(fs)[f]
  {
    RootedUnfolds(fs, f);
    if fs[f].parent.None? {
      InsertCounts(fs, f, fd, None, s, g);
    } else {
      var p := fs[f].parent.value;
      assert HasParent(fs, f);
      assert Under(fs, f, g) <==> g == f || Under(fs, p, g);
      if Under(fs, p, f) {
        RankDropsUpTheChain(fs, p, f);
        assert false;
      }
      if p in s.memo {
        if Under(fs, p, g) {
          MemoHoldsChains(fs, fd, s, p, g);
        }
        InsertCounts(fs, f, fd, Some(s.memo[p]), s, g);
      } else {
        FreezeFolderIsFaithful(fs, p, fd, s);
        FreezeFolderCounts(fs, p, fd, s, g);
        var above := FreezeFolder(fs, p, fd, s);
        InsertCounts(fs, f, fd, Some(above.memo[p]), above, g);
      }
    }
  }

  // ----- The whole listing -----

  /** Some folder under `g` is listed before `g` is. */
  ghost predicate DescendantFirst(fs: Folders, order: seq<Id>, g: Id)
    requires Acyclic(fs)
  {
    exists i :: 0 <= i < |order| && Under(fs, order[i], g) && g !in order[..i + 1]
  }

  /** Every listed folder comes after its parent. */
  ghost predicate ParentsFirst(fs: Folders, order: seq<Id>) {
    forall i :: 0 <= i < |order| && HasParent(fs, order[i]) ==> ParentOf(fs, order[i]) in order[..i]
  }

  /** A release starts with no copies and an empty memory. */
  ghost predicate FreshStart(fd: Id, s: Freezing) {
    s.memo == map[] && (forall k :: k in s.frozen ==> k < s.next && s.frozen[k].dataset != fd)
  }

  /** The copy is a homomorphism for every listing order. */
  lemma {:induction false} FreezeListedIsFaithful(fs: Folders, order: seq<Id>, fd: Id, s: Freezing)
    requires Acyclic(fs) && (forall f :: f in order ==> Rooted(fs, f))
    requires FreshStart(fd, s)
    ensures Faithful(fs, fd, FreezeListed(fs, order, fd, s)) && Extends(s, FreezeListed(fs, order, fd, s))
  {
    if order != [] {
      var front, x := order[..|order| - 1], order[|order| - 1];
      var mid := FreezeListed(fs, front, fd, s);
      FreezeListedIsFaithful(fs, front, fd, s);
      FreezeFolderIsFaithful(fs, x, fd, mid);
      var t := FreezeFolder(fs, x, fd, mid);
      ExtendsTransitive(s, mid, t);
      assert FreezeListed(fs, order, fd, s) == t;
    }
  }

  lemma OneMoreRemembers(fs: Folders, front: seq<Id>, x: Id, fd: Id, s: Freezing, g: Id)
    requires Acyclic(fs) && Rooted(fs, x) && (forall f :: f in front ==> Rooted(fs, f))
    requires FreshStart(fd, s)
    ensures g in FreezeFolder(fs, x, fd, FreezeListed(fs, front, fd, s)).memo <==>
            g in FreezeListed(fs, front, fd, s).memo || Under(fs, x, g)
  {
    FreezeListedIsFaithful(fs, front, fd, s);
    FreezeFolderIsFaithful(fs, x, fd, FreezeListed(fs, front, fd, s));
  }

  /** The listing reaches exactly the listed folders and their ancestors. */
  lemma {:induction false} FreezeListedReaches(fs: Folders, order: seq<Id>, fd: Id, s: Freezing, g: Id)
    requires Acyclic(fs) && (forall f :: f in order ==> Rooted(fs, f))
    requires FreshStart(fd, s)
    ensures g in FreezeListed(fs, order, fd, s).memo <==> AboveListed(fs, order, g)
  {
    if order != [] {
      var front, x := order[..|order| - 1], order[|order| - 1];
      FreezeListedReaches(fs, front, fd, s, g);
      OneMoreRemembers(fs, front, x, fd, s, g);
      AboveListedStep(fs, front, x, g);
      assert order == front + [x];
    }
  }

  lemma ExtendsTransitive(s: Freezing, t: Freezing, u: Freezing)
    requires Extends(s, t) && Extends(t, u)
    ensures Extends(s, u)
  {
  }

  ghost predicate AboveListed(fs: Folders, order: seq<Id>, g: Id)
    requires Acyclic(fs)
  {
    exists i :: 0 <= i < |order| && Under(fs, order[i], g)
  }

  /** The folders of dataset `d` and those above them: what the freeze of `d` moves in. */
  ghost function Reached(fs: Folders, d: Id): Folders {
    Above(fs, FoldersOf(fs, {d}))
  }

  /** `f` is a folder of dataset `d` or above one. */
  ghost predicate AboveDataset(fs: Folders, d: Id, f: Id) {
    f in Reached(fs, d)
  }

  lemma OwnFolderIsAbove(fs: Folders, d: Id, f: Id)
    requires f in fs && fs[f].dataset == d
    ensures AboveDataset(fs, d, f)
  {
    AboveIsUpClosed(fs, FoldersOf(fs, {d}));
  }

  lemma ReachedInForest(fs: Folders, d: Id)
    requires Acyclic(fs)
    ensures UpClosed(fs, Reached(fs, d)) && Acyclic(Reached(fs, d)) && (Closed(fs) ==> Closed(Reached(fs, d)))
    ensures forall x :: x in Reached(fs, d) ==> Chain(Reached(fs, d), x) == Chain(fs, x)
  {
    AboveIsUpClosed(fs, FoldersOf(fs, {d}));
    UpClosedInForest(fs, Reached(fs, d));
  }

  /** Where parent links stay inside datasets the freeze reaches nothing but the dataset's folders. */
  lemma AboveInOneDataset(fs: Folders, d: Id, f: Id)
    requires Acyclic(fs) && OneDataset(fs) && AboveDataset(fs, d, f)
    ensures f in fs && fs[f].dataset == d
  {
    var g :| g in FoldersOf(fs, {d}) && Reaches(fs, g, f);
    ReachesIffUnder(fs, g, f);
    ChainInOneDataset(fs, g, f);
  }

  lemma ReachedUnder(fs: Folders, d: Id, g: Id, f: Id)
    requires Acyclic(Reached(fs, d)) && g in FoldersOf(fs, {d})
    ensures Reaches(fs, g, f) <==> Under(Reached(fs, d), g, f)
    ensures Under(Reached(fs, d), g, f) ==> f in Reached(fs, d)
  {
    AboveIsUpClosed(fs, FoldersOf(fs, {d}));
    SameWalks(fs, Reached(fs, d), g);
    ReachesIffUnder(Reached(fs, d), g, f);
  }

  lemma UnderSome(fs: Folders, d: Id, x: Id)
    requires Acyclic(Reached(fs, d)) && x in Reached(fs, d)
    ensures exists r :: r in FoldersOf(fs, {d}) && Under(Reached(fs, d), r, x)
  {
    var r :| r in FoldersOf(fs, {d}) && Reaches(fs, r, x);
    ReachedUnder(fs, d, r, x);
  }

  /** The freeze goes through exactly when no folder it reaches names a parent that is gone. */
  lemma AllRootedIffClosed(fs: Folders, d: Id)
    requires Acyclic(Reached(fs, d))
    ensures Closed(Reached(fs, d)) <==> forall f :: f in FoldersOf(fs, {d}) ==> Rooted(Reached(fs, d), f)
  {
    hide Reached, Acyclic;
    var gs := Reached(fs, d);
    ClosedIffRooted(gs);
    forall f | f in FoldersOf(fs, {d}) ensures f in gs {
      OwnFolderIsAbove(fs, d, f);
    }
    hide FoldersOf;
    if forall f :: f in FoldersOf(fs, {d}) ==> Rooted(gs, f) {
      forall x | x in gs && gs[x].parent.Some? ensures gs[x].parent.value in gs {
        UnderSome(fs, d, x);
      }
    }
  }

  lemma AboveListedIsAboveDataset(fs: Folders, order: seq<Id>, d: Id, f: Id)
    requires Acyclic(Reached(fs, d)) && forall g :: g in order <==> g in fs && fs[g].dataset == d
    ensures AboveListed(Reached(fs, d), order, f) <==> AboveDataset(fs, d, f)
  {
    var gs := Reached(fs, d);
    forall g | g in FoldersOf(fs, {d}) ensures Reaches(fs, g, f) <==> Under(gs, g, f) {
      ReachedUnder(fs, d, g, f);
    }
    hide Under, Reaches;
    if AboveListed(gs, order, f) {
      var i :| 0 <= i < |order| && Under(gs, order[i], f);
      assert order[i] in order;
      assert f in gs;
    }
    if AboveDataset(fs, d, f) {
      var g :| g in FoldersOf(fs, {d}) && Reaches(fs, g, f);
      var i :| 0 <= i < |order| && order[i] == g;
      assert Under(gs, order[i], f);
    }
  }

  lemma AboveListedStep(fs: Folders, front: seq<Id>, x: Id, g: Id)
    requires Acyclic(fs)
    ensures AboveListed(fs, front + [x], g) <==> AboveListed(fs, front, g) || Under(fs, x, g)
  {
    var order := front + [x];
    if AboveListed(fs, front, g) {
      var i :| 0 <= i < |front| && Under(fs, front[i], g);
      assert Under(fs, order[i], g);
    }
    if Under(fs, x, g) {
      assert Under(fs, order[|front|], g);
    }
  }

  /** The exact number of copies for any listing order: one for being listed and one more when a
      descendant was listed first. */
  lemma {:induction false} FreezeListedCounts(fs: Folders, order: seq<Id>, fd: Id, s: Freezing, g: Id)
    requires Acyclic(fs) && NoDuplicates(order) && (forall f :: f in order ==> Rooted(fs, f))
    requires FreshStart(fd, s)
    ensures |Copies(FreezeListed(fs, order, fd, s).frozen, fd, g)| ==
            (if g in order then 1 else 0) + if DescendantFirst(fs, order, g) then 1 else 0
  {
    if order == [] {
      assert Copies(s.frozen, fd, g) == {};
    } else {
      var front, x := order[..|order| - 1], order[|order| - 1];
      assert order == front + [x] && x !in front;
      FreezeListedCounts(fs, front, fd, s, g);
      OneMoreCopies(fs, front, x, fd, s, g);
      hide Rooted, DescendantFirst, Copies, AboveListed, Under;
      CountStep(fs, front, x, g);
    }
  }

  lemma OneMoreCopies(fs: Folders, front: seq<Id>, x: Id, fd: Id, s: Freezing, g: Id)
    requires Acyclic(fs) && FreshStart(fd, s) && Rooted(fs, x) && x in fs
    requires forall f :: f in front ==> Rooted(fs, f)
    ensures forall f :: f in front ==> f in fs
    ensures var t := FreezeListed(fs, front, fd, s);
            |Copies(FreezeFolder(fs, x, fd, t).frozen, fd, g)| ==
            |Copies(t.frozen, fd, g)| + if g == x || (Under(fs, x, g) && !AboveListed(fs, front, g)) then 1 else 0
  {
    FreezeListedIsFaithful(fs, front, fd, s);
    FreezeListedReaches(fs, front, fd, s, g);
    FreezeFolderCounts(fs, x, fd, FreezeListed(fs, front, fd, s), g);
  }

  lemma DescendantFirstStep(fs: Folders, front: seq<Id>, x: Id, g: Id)
    requires Acyclic(fs)
    ensures DescendantFirst(fs, front + [x], g) <==>
            DescendantFirst(fs, front, g) || (Under(fs, x, g) && g !in front + [x])
  {
    var order := front + [x];
    assert order[..|front| + 1] == order && order[|front|] == x;
    assert forall i :: 0 <= i < |front| ==> order[..i + 1] == front[..i + 1] && order[i] == front[i];
    if DescendantFirst(fs, front, g) {
      var i :| 0 <= i < |front| && Under(fs, front[i], g) && g !in front[..i + 1];
      assert Under(fs, order[i], g) && g !in order[..i + 1];
    }
    if Under(fs, x, g) && g !in order {
      assert Under(fs, order[|front|], g);
    }
  }

  lemma ListedIsAbove(fs: Folders, order: seq<Id>, g: Id)
    requires Acyclic(fs) && forall f :: f in order ==> f in fs
    ensures g in order ==> AboveListed(fs, order, g)
    ensures DescendantFirst(fs, order, g) ==> AboveListed(fs, order, g)
    ensures AboveListed(fs, order, g) && g !in order ==> DescendantFirst(fs, order, g)
  {
    if g in order {
      var i :| 0 <= i < |order| && order[i] == g;
      assert Under(fs, order[i], g);
    } else if AboveListed(fs, order, g) {
      var i :| 0 <= i < |order| && Under(fs, order[i], g);
      assert g !in order[..i + 1];
    }
  }

  /** One more listed folder, counted. */
  lemma CountStep(fs: Folders, front: seq<Id>, x: Id, g: Id)
    requires Acyclic(fs) && x !in front && x in fs && forall f :: f in front ==> f in fs
    ensures (if g in front + [x] then 1 else 0) + (if DescendantFirst(fs, front + [x], g) then 1 else 0) ==
            (if g in front then 1 else 0) + (if DescendantFirst(fs, front, g) then 1 else 0) +
            if g == x || (Under(fs, x, g) && !AboveListed(fs, front, g)) then 1 else 0
  {
    DescendantFirstStep(fs, front, x, g);
    ListedIsAbove(fs, front, g);
    assert g in front + [x] <==> g in front || g == x;
  }

  lemma {:induction false} AncestorsListedBefore(fs: Folders, order: seq<Id>, i: nat, g: Id)
    requires Acyclic(fs) && ParentsFirst(fs, order) && i < |order| && Under(fs, order[i], g)
    ensures g in order[..i + 1]
    decreases i
  {
    if g != order[i] {
      RankDropsUpTheChain(fs, order[i], g);
      var p := ParentOf(fs, order[i]);
      var j :| 0 <= j < i && order[j] == p;
      AncestorsListedBefore(fs, order, j, g);
    }
  }

  /** The copy of the listed folders is one-to-one exactly when parents are listed first. */
  lemma OneCopyEachIffParentsFirst(fs: Folders, order: seq<Id>, fd: Id, s: Freezing)
    requires Acyclic(fs) && NoDuplicates(order) && (forall f :: f in order ==> Rooted(fs, f))
    requires forall f :: f in order && HasParent(fs, f) ==> ParentOf(fs, f) in order
    requires FreshStart(fd, s)
    ensures (forall g :: g in order ==> |Copies(FreezeListed(fs, order, fd, s).frozen, fd, g)| == 1) <==>
            ParentsFirst(fs, order)
  {
    forall g ensures |Copies(FreezeListed(fs, order, fd, s).frozen, fd, g)| ==
                     (if g in order then 1 else 0) + if DescendantFirst(fs, order, g) then 1 else 0 {
      FreezeListedCounts(fs, order, fd, s, g);
    }
    NoDescendantFirstIff(fs, order);
  }

  lemma NoDescendantFirstIff(fs: Folders, order: seq<Id>)
    requires Acyclic(fs) && (forall f :: f in order ==> f in fs)
    requires forall f :: f in order && HasParent(fs, f) ==> ParentOf(fs, f) in order
    ensures (forall g :: g in order ==> !DescendantFirst(fs, order, g)) <==> ParentsFirst(fs, order)
  {
    if ParentsFirst(fs, order) {
      forall g ensures !DescendantFirst(fs, order, g) {
        if DescendantFirst(fs, order, g) {
          var i :| 0 <= i < |order| && Under(fs, order[i], g) && g !in order[..i + 1];
          AncestorsListedBefore(fs, order, i, g);
        }
      }
    } else {
      var i :| 0 <= i < |order| && HasParent(fs, order[i]) && ParentOf(fs, order[i]) !in order[..i];
      var f, p := order[i], ParentOf(fs, order[i]);
      assert RankOf(fs)[p] < RankOf(fs)[f];
      assert Under(fs, p, p) && Under(fs, f, p);
      assert order[..i + 1] == order[..i] + [f];
      assert DescendantFirst(fs, order, p) && p in order;
    }
  }

  /** A listing with the child first: two frozen copies of the parent, so "one copy each" is false
      of the loop as it is written. */
  lemma ChildFirstFreezesParentTwice(fd: Id)
    ensures var fs := map[1 := Folder("parent", 0, None, None), 2 := Folder("child", 0, Some(1), None)];
            Acyclic(fs) && Closed(fs) &&
            |Copies(FreezeListed(fs, [2, 1], fd, Freezing(map[], 3, map[])).frozen, fd, 1)| == 2
  {
    var fs := map[1 := Folder("parent", 0, None, None), 2 := Folder("child", 0, Some(1), None)];
    assert Ranked(fs, map[1 := 0, 2 := 1]);
    ClosedIffRooted(fs);
    FreezeListedCounts(fs, [2, 1], fd, Freezing(map[], 3, map[]), 1);
    assert HasParent(fs, 2) && Chain(fs, 2) == Chain(fs, 1) + [2];
    assert Under(fs, [2, 1][0], 1) && 1 !in [2, 1][..1];
  }

  // ----- Paths -----

  /** The walk from a copy reads the same names as the walk from its origin, even when the copies
      of one folder are two. */
  lemma {:induction false} CopyHasTheNamesOfItsOrigin(fs: Folders, gs: Folders, fd: Id, k: Id)
    requires Acyclic(fs) && Acyclic(gs) && k in gs && gs[k].dataset == fd
    requires forall j :: j in gs && gs[j].dataset == fd ==> IsCopy(fs, fd, gs, j)
    requires Closed(fs)
    ensures gs[k].origin.Some? && gs[k].origin.value in fs
    ensures Names(gs, k) == Names(fs, gs[k].origin.value)
    decreases k
  {
    assert IsCopy(fs, fd, gs, k);
    var o := gs[k].origin.value;
    NamesUnfold(fs, o);
    NamesUnfold(gs, k);
    if fs[o].parent.Some? {
      CopyHasTheNamesOfItsOrigin(fs, gs, fd, gs[k].parent.value);
    }
  }
}
