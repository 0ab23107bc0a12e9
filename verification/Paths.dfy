/** The two ways the system spells the path of a folder: the recursive export path and the
    root-first list of the path route. */
module Paths {
  import opened Types
  import opened Forest

  predicate Absolute(s: string) {
    s != "" && s[0] == '/'
  }

  predicate EndsWithSlash(s: string) {
    s != "" && s[|s| - 1] == '/'
  }

  /** `os.path.join` of two parts on POSIX: an absolute second part discards the first. */
  function PathJoin(a: string, b: string): string {
    if Absolute(b) then b
    else if a == "" || EndsWithSlash(a) then a + b
    else a + "/" + b
  }

  /** The recursive path writer. A missing folder is an exception the code does not catch. */
  function Hierarchy(fs: Folders, f: Id, hierarchy: string): Outcome<string>
    requires Acyclic(fs)
    decreases if f in fs then RankOf(fs)[f] + 1 else 0
  {
    if f !in fs then Err(500)
    else
      var joined := PathJoin(fs[f].name, hierarchy);
      assert fs[f].parent.Some? && fs[f].parent.value in fs ==> HasParent(fs, f);
      if fs[f].parent.None? then Ok(joined) else Hierarchy(fs, fs[f].parent.value, joined)
  }

  datatype PathEntry = PathEntry(name: string, id: Id)

  ghost function Entries(fs: Folders, chain: seq<Id>): seq<PathEntry>
    requires forall g :: g in chain ==> g in fs
  {
    seq(|chain|, i requires 0 <= i < |chain| => PathEntry(fs[chain[i]].name, chain[i]))
  }

  /** The entries from the root down to `f`. */
  ghost function Trail(fs: Folders, f: Id): seq<PathEntry>
    requires Acyclic(fs) && f in fs
  {
    Entries(fs, Chain(fs, f))
  }

  lemma TrailUnfolds(fs: Folders, c: Id)
    requires Acyclic(fs) && c in fs
    ensures Trail(fs, c) == (if HasParent(fs, c) then Trail(fs, ParentOf(fs, c)) else []) + [PathEntry(fs[c].name, c)]
  {
  }

  /** The folders on the way up from `f`. */
  ghost function WayUp(fs: Folders, f: Id): Folders {
    Above(fs, {f})
  }

  lemma WayUpIsAForest(fs: Folders, f: Id)
    requires f in fs && WalkEnds(fs, f)
    ensures UpClosed(fs, WayUp(fs, f)) && Acyclic(WayUp(fs, f)) && f in WayUp(fs, f)
  {
    AboveIsUpClosed(fs, {f});
    AboveAcyclicIff(fs, {f});
  }

  /** In a forest it is read like the forest. */
  lemma WayUpInForest(fs: Folders, f: Id)
    requires Acyclic(fs) && f in fs
    ensures WalkEnds(fs, f) && UpClosed(fs, WayUp(fs, f)) && Acyclic(WayUp(fs, f)) && f in WayUp(fs, f)
    ensures Chain(WayUp(fs, f), f) == Chain(fs, f)
    ensures Trail(WayUp(fs, f), f) == Trail(fs, f)
  {
    AcyclicIffEveryWalkEnds(fs);
    WayUpIsAForest(fs, f);
    UpClosedInForest(fs, WayUp(fs, f));
    SameEntries(fs, WayUp(fs, f), Chain(fs, f));
    hide WayUp, Chain, Entries, Above;
  }

  lemma SameEntries(fs: Folders, gs: Folders, chain: seq<Id>)
    requires forall g :: g in chain ==> g in gs
    requires forall g :: g in gs ==> g in fs && fs[g] == gs[g]
    ensures Entries(gs, chain) == Entries(fs, chain)
  {
  }

  /** The path route: a loop that inserts at the front until no record matches. It ends where the walk up
      from `f` does. */
  method DownloadFolder(fs: Folders, f: Id) returns (r: Outcome<seq<PathEntry>>)
    requires f in fs ==> WalkEnds(fs, f)
    ensures f in fs ==> Acyclic(WayUp(fs, f)) && f in WayUp(fs, f) &&
                        r == Ok(Trail(WayUp(fs, f), f))
    ensures f !in fs ==> r == Err(404)
  {
    if f !in fs {
      return Err(404);
    }
    ghost var gs := WayUp(fs, f);
    WayUpIsAForest(fs, f);
    hide WayUp, WalkEnds, Trail;
    var path: seq<PathEntry> := [];
    var current := Some(f);
    ghost var left := Trail(gs, f);
    while current.Some? && current.value in fs
      invariant current.Some? && current.value in fs ==> current.value in gs && left == Trail(gs, current.value)
      invariant !(current.Some? && current.value in fs) ==> left == []
      invariant left + path == Trail(gs, f)
      decreases |left|
    {
      var c := current.value;
      TrailUnfolds(gs, c);
      path := [PathEntry(fs[c].name, c)] + path;
      current := fs[c].parent;
      assert HasParent(fs, c) ==> HasParent(gs, c);
      left := left[..|left| - 1];
    }
    assert [] + path == path;
    return Ok(path);
  }

  /** The names from the root down to `f`, as the path route reports them. */
  ghost function Names(fs: Folders, f: Id): seq<string>
    requires Acyclic(fs) && f in fs
  {
    NamesOf(Trail(fs, f))
  }

  ghost function NamesOf(path: seq<PathEntry>): seq<string> {
    seq(|path|, i requires 0 <= i < |path| => path[i].name)
  }

  lemma NamesUnfold(fs: Folders, f: Id)
    requires Acyclic(fs) && f in fs
    ensures Names(fs, f) == (if HasParent(fs, f) then Names(fs, ParentOf(fs, f)) else []) + [fs[f].name]
  {
  }

  /** Separator-terminated, as `os.path.join(name, "")` leaves it. */
  function Separated(name: string): string {
    if name == "" || EndsWithSlash(name) then name else name + "/"
  }

  /** The names one after the other, each with its separator. */
  function Spell(names: seq<string>): string {
    if names == [] then "" else Spell(names[..|names| - 1]) + Separated(names[|names| - 1])
  }

  /** Where the last absolute name stands; 0 when there is none. */
  function LastAbsolute(names: seq<string>): (k: nat)
    ensures k == 0 || (k < |names| && Absolute(names[k]))
    ensures forall i :: k < i < |names| ==> !Absolute(names[i])
  {
    if names == [] then 0
    else if Absolute(names[|names| - 1]) then |names| - 1
    else LastAbsolute(names[..|names| - 1])
  }

  lemma Associative(a: string, b: string, c: string)
    ensures (a + b) + c == a + (b + c)
  {
  }

  lemma SpellAppend(names: seq<string>, name: string)
    ensures Spell(names + [name]) == Spell(names) + Separated(name)
  {
    assert (names + [name])[..|names|] == names;
  }

  lemma {:induction false} SpellConcat(a: seq<string>, b: seq<string>)
    ensures Spell(a + b) == Spell(a) + Spell(b)
  {
    if b == [] {
      assert a + b == a;
    } else {
      var front, last := b[..|b| - 1], b[|b| - 1];
      SpellConcat(a, front);
      assert b == front + [last];
      SpellOneMore(a, front, last);
    }
  }

  lemma SpellOneMore(a: seq<string>, b: seq<string>, name: string)
    requires Spell(a + b) == Spell(a) + Spell(b)
    ensures Spell(a + (b + [name])) == Spell(a) + Spell(b + [name])
  {
    SpellAppend(a + b, name);
    SpellAppend(b, name);
    hide Spell, Separated;
    assert a + (b + [name]) == (a + b) + [name];
    Associative(Spell(a), Spell(b), Separated(name));
  }

  /** Once the accumulated path is absolute, no ancestor is written any more. */
  lemma {:induction false} AbsolutePathIsKept(fs: Folders, f: Id, hierarchy: string)
    requires Acyclic(fs) && Closed(fs) && f in fs && Absolute(hierarchy)
    ensures Hierarchy(fs, f, hierarchy) == Ok(hierarchy)
    decreases RankOf(fs)[f]
  {
    if HasParent(fs, f) {
      AbsolutePathIsKept(fs, ParentOf(fs, f), hierarchy);
    }
  }

  lemma SpellOne(name: string)
    ensures Spell([name]) == Separated(name)
  {
    assert Spell([name][..0]) == "";
  }

  /** Dropping the first `k` names leaves the last one in place. */
  lemma SpellFromAppend(above: seq<string>, name: string, k: nat)
    requires k <= |above|
    ensures Spell((above + [name])[k..]) == Spell(above[k..]) + Separated(name)
  {
    assert (above + [name])[k..] == above[k..] + [name];
    SpellConcat(above[k..], [name]);
    SpellOne(name);
  }

  lemma JoinAppends(name: string, hierarchy: string)
    requires !Absolute(hierarchy)
    ensures PathJoin(name, hierarchy) == Separated(name) + hierarchy
    ensures Absolute(PathJoin(name, hierarchy)) <==> Absolute(name)
  {
  }

  /** The export path is what the path route's names spell from the last absolute name on. */
  lemma {:induction false} HierarchySpellsNames(fs: Folders, f: Id, hierarchy: string)
    requires Acyclic(fs) && Closed(fs) && f in fs && !Absolute(hierarchy)
    ensures Hierarchy(fs, f, hierarchy) == Ok(Spell(Names(fs, f)[LastAbsolute(Names(fs, f))..]) + hierarchy)
    decreases RankOf(fs)[f]
  {
    hide Separated;
    NamesUnfold(fs, f);
    var name := fs[f].name;
    var above := if HasParent(fs, f) then Names(fs, ParentOf(fs, f)) else [];
    var joined := PathJoin(name, hierarchy);
    JoinAppends(name, hierarchy);
    LastAbsoluteAppend(above, name);
    SpellFromAppend(above, name, LastAbsolute(above + [name]));
    assert "" + Separated(name) == Separated(name);
    if Absolute(name) {
      assert above[|above|..] == [];
      if HasParent(fs, f) {
        AbsolutePathIsKept(fs, ParentOf(fs, f), joined);
      }
    } else if HasParent(fs, f) {
      HierarchySpellsNames(fs, ParentOf(fs, f), joined);
      Associative(Spell(above[LastAbsolute(above)..]), Separated(name), hierarchy);
    }
  }

  lemma LastAbsoluteAppend(above: seq<string>, name: string)
    ensures LastAbsolute(above + [name]) == if Absolute(name) then |above| else LastAbsolute(above)
  {
    assert (above + [name])[..|above|] == above;
  }

  /** The export path spells all the names of the path route exactly when nothing but empty names
      stands before the last absolute one; in particular when no name is absolute. */
  lemma HierarchySpellsAllNamesIff(fs: Folders, f: Id)
    requires Acyclic(fs) && Closed(fs) && f in fs
    ensures Hierarchy(fs, f, "") == Ok(Spell(Names(fs, f))) <==>
            forall i :: 0 <= i < LastAbsolute(Names(fs, f)) ==> Names(fs, f)[i] == ""
  {
    var names := Names(fs, f);
    var k := LastAbsolute(names);
    HierarchySpellsNames(fs, f, "");
    SuffixSpellsAllIff(names, k);
  }

  lemma SuffixSpellsAllIff(names: seq<string>, k: nat)
    requires k <= |names|
    ensures Spell(names[k..]) + "" == Spell(names) <==> forall i :: 0 <= i < k ==> names[i] == ""
  {
    var front, back := names[..k], names[k..];
    assert names == front + back;
    SpellConcat(front, back);
    PrefixIsNothingIff(Spell(front), Spell(back));
    SpellsNothingIff(front);
    assert forall i :: 0 <= i < k ==> names[i] == front[i];
  }

  lemma PrefixIsNothingIff(a: string, b: string)
    ensures b + "" == a + b <==> a == ""
  {
    assert |a + b| == |a| + |b|;
    assert b + "" == b;
    assert "" + b == b;
  }

  lemma {:induction false} SpellsNothingIff(names: seq<string>)
    ensures Spell(names) == "" <==> forall i :: 0 <= i < |names| ==> names[i] == ""
  {
    if names != [] {
      SpellsNothingIff(names[..|names| - 1]);
      assert forall i :: 0 <= i < |names| - 1 ==> names[i] == names[..|names| - 1][i];
      assert Separated(names[|names| - 1]) == "" <==> names[|names| - 1] == "";
    }
  }

  /** Without a closed collection the writer fails exactly when the topmost record it reaches
      names a parent that is gone; the path route stops there and answers all the same. */
  lemma {:induction false} HierarchyFailsIff(fs: Folders, f: Id, hierarchy: string)
    requires Acyclic(fs) && f in fs
    ensures Hierarchy(fs, f, hierarchy).Err? <==> fs[Chain(fs, f)[0]].parent.Some?
    decreases RankOf(fs)[f]
  {
    if HasParent(fs, f) {
      HierarchyFailsIff(fs, ParentOf(fs, f), PathJoin(fs[f].name, hierarchy));
      assert Chain(fs, f)[0] == Chain(fs, ParentOf(fs, f))[0];
    }
  }
}
