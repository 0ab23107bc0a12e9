/** Creating the folders of a zip listing, and finding them again for the files. */
module ZipImport {
  import opened Types
  import opened Forest
  import opened Paths
  import opened State
  import opened Invariant
  import opened EntryNames
  import opened ZipListing

  /** The key of a directory: every name after a separator. */
  function Key(p: seq<string>): string {
    if p == [] then "" else Key(p[..|p| - 1]) + "/" + p[|p| - 1]
  }

  lemma {:induction false} KeyIsJoined(p: seq<string>)
    requires p != []
    ensures Key(p) == "/" + Join(p)
  {
    if |p| == 1 {
      assert p[..0] == [] && Key(p) == "" + "/" + p[0];
    } else {
      KeyIsJoined(p[..|p| - 1]);
    }
  }

  lemma KeyIsOneToOne(p: seq<string>, q: seq<string>)
    requires Directory(p) && Directory(q) && Key(p) == Key(q)
    ensures p == q
  {
    KeyIsJoined(p);
    KeyIsJoined(q);
    assert Key(p)[1..] == Join(p) && Key(q)[1..] == Join(q);
    DirectoryByName(p, q);
  }

  /** The collections the import writes: folders, the id counter, and the lookup by directory. */
  datatype Import = Import(folders: Folders, next: Id, at: map<seq<string>, Id>)

  /** The lookup the code keeps, by key. */
  ghost predicate Mirrors(lookup: map<string, Id>, at: map<seq<string>, Id>) {
    && (forall p :: p in at ==> Directory(p) && Key(p) in lookup && lookup[Key(p)] == at[p])
    && (forall key :: key in lookup ==> exists p :: p in at && Key(p) == key)
  }

  lemma MirrorsOneMore(lookup: map<string, Id>, at: map<seq<string>, Id>, p: seq<string>, id: Id)
    requires Mirrors(lookup, at) && Directory(p) && p !in at
    ensures Mirrors(lookup[Key(p) := id], at[p := id])
  {
    hide Directory, Key;
    var lookup', at' := lookup[Key(p) := id], at[p := id];
    forall q | q in at' ensures Directory(q) && Key(q) in lookup' && lookup'[Key(q)] == at'[q] {
      if q != p && Key(q) == Key(p) {
        KeyIsOneToOne(q, p);
      }
    }
    forall key | key in lookup' ensures exists q :: q in at' && Key(q) == key {
      KeyIsKnown(lookup, at, p, id, key);
    }
  }

  lemma KeyIsKnown(lookup: map<string, Id>, at: map<seq<string>, Id>, p: seq<string>, id: Id, key: string)
    requires Mirrors(lookup, at) && (key in lookup || key == Key(p))
    ensures exists q :: q in at[p := id] && Key(q) == key
  {
    if key == Key(p) {
      assert p in at[p := id];
    } else {
      var q :| q in at && Key(q) == key;
      assert q in at[p := id];
    }
  }

  /** Directory `p` of a tree that hangs below `path`, its first name among `done`. */
  predicate Within(t: Tree, path: seq<string>, done: set<string>, p: seq<string>) {
    |p| > |path| && p[..|path|] == path && p[|path|] in done && Has(t, p[|path|..])
  }

  /** The folder of directory `p`: its last name, below the folder of the directory above. */
  ghost predicate Placed(s: Import, d: Id, path: seq<string>, parent: Option<Id>, p: seq<string>) {
    && p != [] && p in s.at && s.at[p] in s.folders
    && (|p| > |path| + 1 ==> p[..|p| - 1] in s.at)
    && s.folders[s.at[p]] ==
       Folder(p[|p| - 1], d, if |p| > |path| + 1 then Some(s.at[p[..|p| - 1]]) else parent, None)
  }

  /** From `s` to `s'` exactly the directories of `t` below `path` with a first name in `done` got a
      folder, one each, and nothing else changed. */
  ghost predicate Planted(s: Import, s': Import, d: Id, t: Tree, path: seq<string>, parent: Option<Id>, done: set<string>) {
    && s.next <= s'.next && Grows(s.folders, s'.folders, s.next, s'.next)
    && (forall p :: p in s'.at <==> p in s.at || Within(t, path, done, p))
    && (forall p :: p in s.at ==> p in s'.at && s'.at[p] == s.at[p])
    && (forall p :: Within(t, path, done, p) ==> Placed(s', d, path, parent, p) && s'.at[p] >= s.next)
    && (forall k :: k in s'.folders && k !in s.folders ==> ForSome(s', t, path, done, k))
  }

  ghost predicate ForSome(s: Import, t: Tree, path: seq<string>, done: set<string>, k: Id) {
    exists p :: Within(t, path, done, p) && p in s.at && s.at[p] == k
  }

  /** One more folder. */
  function Insert(s: Import, d: Id, p: seq<string>, parent: Option<Id>): Import
    requires p != []
  {
    Import(s.folders[s.next := Folder(p[|p| - 1], d, parent, None)], s.next + 1, s.at[p := s.next])
  }

  lemma WithinOneMore(t: Tree, path: seq<string>, done: set<string>, k: string, p: seq<string>)
    requires k in t.below
    ensures Within(t, path, done + {k}, p) <==>
            Within(t, path, done, p) || p == path + [k] ||
            Within(t.below[k], path + [k], t.below[k].below.Keys, p)
  {
    var sub := path + [k];
    if |p| > |path| && p[..|path|] == path {
      assert p[..|path| + 1] == path + [p[|path|]];
      var rest := p[|path|..];
      assert rest[0] == p[|path|] && rest[1..] == p[|path| + 1..];
      if p[|path|] == k {
        assert Has(t, rest) <==> Has(t.below[k], p[|sub|..]);
        if |p| == |sub| {
          assert p == p[..|path| + 1] && p[|sub|..] == [];
        } else {
          assert p[..|sub|] == sub && p[|sub|..][0] == p[|sub|];
        }
      } else if |p| >= |sub| {
        assert p[..|sub|][|path|] == p[|path|] && sub[|path|] == k;
      }
    }
  }

  lemma StaysPlaced(s: Import, s': Import, d: Id, path: seq<string>, parent: Option<Id>, p: seq<string>)
    requires Placed(s, d, path, parent, p)
    requires forall q :: q in s.at ==> q in s'.at && s'.at[q] == s.at[q]
    requires forall k :: k in s.folders ==> k in s'.folders && s'.folders[k] == s.folders[k]
    ensures Placed(s', d, path, parent, p)
  {
  }

  lemma PlacedFromAbove(s: Import, d: Id, path: seq<string>, parent: Option<Id>, k: string, p: seq<string>)
    requires path + [k] in s.at && Placed(s, d, path + [k], Some(s.at[path + [k]]), p)
    requires |p| > |path| + 1 && p[..|path| + 1] == path + [k]
    ensures Placed(s, d, path, parent, p)
  {
    if |p| == |path| + 2 {
      assert p[..|p| - 1] == path + [k];
    }
  }

  /** One round of the loop: the folder of `k`, then what is below it. */
  ghost predicate Round(s: Import, s': Import, d: Id, t: Tree, path: seq<string>, parent: Option<Id>, k: string) {
    && k in t.below && path + [k] !in s.at
    && Planted(Insert(s, d, path + [k], parent), s', d, t.below[k], path + [k], Some(s.next), t.below[k].below.Keys)
  }

  lemma RoundKeeps(s: Import, s': Import, d: Id, t: Tree, path: seq<string>, parent: Option<Id>, k: string)
    requires Issued(s.folders, s.next) && Round(s, s', d, t, path, parent, k)
    ensures s.next <= s'.next && Grows(s.folders, s'.folders, s.next, s'.next)
    ensures forall q :: q in s.at ==> q in s'.at && s'.at[q] == s.at[q]
    ensures path + [k] in s'.at && s'.at[path + [k]] == s.next && Placed(s', d, path, parent, path + [k])
  {
    var s1 := Insert(s, d, path + [k], parent);
    assert forall q :: q in s.at ==> q in s1.at && s1.at[q] == s.at[q];
    assert path + [k] in s1.at && Placed(s1, d, path, parent, path + [k]);
    StaysPlaced(s1, s', d, path, parent, path + [k]);
  }

  lemma RoundPlaces(s: Import, s': Import, d: Id, t: Tree, path: seq<string>, parent: Option<Id>, k: string, p: seq<string>)
    requires Issued(s.folders, s.next) && Round(s, s', d, t, path, parent, k)
    requires Within(t.below[k], path + [k], t.below[k].below.Keys, p)
    ensures Placed(s', d, path, parent, p) && s'.at[p] >= s.next
  {
    RoundKeeps(s, s', d, t, path, parent, k);
    assert p[..|path| + 1] == p[..|path + [k]|];
    PlacedFromAbove(s', d, path, parent, k, p);
  }

  lemma RoundAdds(s: Import, s': Import, d: Id, t: Tree, path: seq<string>, parent: Option<Id>, done: set<string>,
                  k: string, id: Id)
    requires Round(s, s', d, t, path, parent, k) && id in s'.folders && id !in s.folders
    ensures ForSome(s', t, path, done + {k}, id)
  {
    var sub, s1 := path + [k], Insert(s, d, path + [k], parent);
    if id == s.next {
      assert sub in s1.at && s1.at[sub] == id;
      WithinOneMore(t, path, done, k, sub);
    } else {
      assert id !in s1.folders;
      assert ForSome(s', t.below[k], sub, t.below[k].below.Keys, id);
      var p :| Within(t.below[k], sub, t.below[k].below.Keys, p) && p in s'.at && s'.at[p] == id;
      WithinOneMore(t, path, done, k, p);
    }
  }

  lemma OldAdds(s: Import, s': Import, t: Tree, path: seq<string>, done: set<string>, k: string, id: Id)
    requires ForSome(s, t, path, done, id) && forall q :: q in s.at ==> q in s'.at && s'.at[q] == s.at[q]
    ensures ForSome(s', t, path, done + {k}, id)
  {
    var p :| Within(t, path, done, p) && p in s.at && s.at[p] == id;
    assert Within(t, path, done + {k}, p);
  }

  lemma RoundKnows(s: Import, s': Import, d: Id, t: Tree, path: seq<string>, parent: Option<Id>, k: string, p: seq<string>)
    requires Round(s, s', d, t, path, parent, k)
    ensures p in s'.at <==>
            p in s.at || p == path + [k] || Within(t.below[k], path + [k], t.below[k].below.Keys, p)
  {
  }

  /** The rounds of the loop add up. */
  lemma PlantedOneMore(s0: Import, s: Import, s': Import, d: Id, t: Tree, path: seq<string>, parent: Option<Id>,
                       done: set<string>, k: string)
    requires Issued(s.folders, s.next) && Planted(s0, s, d, t, path, parent, done) && Round(s, s', d, t, path, parent, k)
    ensures Planted(s0, s', d, t, path, parent, done + {k})
  {
    RoundKeeps(s, s', d, t, path, parent, k);
    forall p ensures p in s'.at <==> p in s0.at || Within(t, path, done + {k}, p) {
      WithinOneMore(t, path, done, k, p);
      RoundKnows(s, s', d, t, path, parent, k, p);
    }
    forall p | Within(t, path, done + {k}, p) ensures Placed(s', d, path, parent, p) && s'.at[p] >= s0.next {
      WithinOneMore(t, path, done, k, p);
      if Within(t, path, done, p) {
        StaysPlaced(s, s', d, path, parent, p);
      } else if p != path + [k] {
        RoundPlaces(s, s', d, t, path, parent, k, p);
      }
    }
    forall id | id in s'.folders && id !in s0.folders ensures ForSome(s', t, path, done + {k}, id) {
      if id in s.folders {
        OldAdds(s, s', t, path, done, k, id);
      } else {
        RoundAdds(s, s', d, t, path, parent, done, k, id);
      }
    }
  }

  lemma NothingPlanted(s: Import, d: Id, t: Tree, path: seq<string>, parent: Option<Id>)
    ensures Planted(s, s, d, t, path, parent, {})
  {
  }

  /** Everything in the tree is a directory below `path`. */
  ghost predicate Directories(path: seq<string>, t: Tree) {
    forall p :: p != [] && Has(t, p) ==> Directory(path + p)
  }

  lemma DirectoriesBelow(path: seq<string>, t: Tree, k: string)
    requires Directories(path, t) && k in t.below
    ensures Directory(path + [k]) && Directories(path + [k], t.below[k])
  {
    hide Directory;
    assert Has(t, [k]) && [k][0] == k;
    forall p | p != [] && Has(t.below[k], p) ensures Directory(path + [k] + p) {
      assert ([k] + p)[1..] == p;
      assert Has(t, [k] + p);
      assert path + [k] + p == path + ([k] + p);
    }
  }

  /** No directory strictly below `path` is known yet. */
  ghost predicate NoneBelow(at: map<seq<string>, Id>, path: seq<string>) {
    forall p :: p in at ==> !(|p| > |path| && p[..|path|] == path)
  }

  /** ... nor, after some rounds of the loop, below a name the loop has still to come to. */
  lemma NextIsFree(s0: Import, s: Import, d: Id, t: Tree, path: seq<string>, parent: Option<Id>, done: set<string>, k: string)
    requires Planted(s0, s, d, t, path, parent, done) && NoneBelow(s0.at, path) && k !in done
    ensures path + [k] !in s.at && NoneBelow(s.at[path + [k] := s.next], path + [k])
  {
    var sub := path + [k];
    forall p | p in s.at ensures !(|p| >= |sub| && p[..|sub|] == sub) {
      if |p| >= |sub| && p[..|sub|] == sub {
        PrefixOf(path, k, p);
        assert false;
      }
    }
    assert sub[..|sub|] == sub;
  }

  lemma PrefixOf(path: seq<string>, k: string, p: seq<string>)
    requires |p| > |path| && p[..|path| + 1] == path + [k]
    ensures p[..|path|] == path && p[|path|] == k
  {
    assert p[..|path|] == p[..|path| + 1][..|path|];
    assert p[|path|] == p[..|path| + 1][|path|];
  }

  class Importer {
    var folders: Folders
    var next: Id
    var lookup: map<string, Id>
    ghost var at: map<seq<string>, Id>

    ghost function Contents(): Import
      reads this
    {
      Import(folders, next, at)
    }

    ghost predicate Valid()
      reads this
    {
      Mirrors(lookup, at) && Issued(folders, next) && Acyclic(folders) && Closed(folders)
    }

    constructor (folders: Folders, next: Id)
      requires Issued(folders, next) && Acyclic(folders) && Closed(folders)
      ensures Valid() && Contents() == Import(folders, next, map[])
    {
      this.folders, this.next, lookup, at := folders, next, map[], map[];
    }

    /** `_create_folder_structure`: for every directory of the tree one folder below its parent's. */
    method CreateFolderStructure(d: Id, contents: Tree, folderPath: string, parent: Option<Id>, ghost path: seq<string>)
      requires Valid() && folderPath == Key(path) && Directories(path, contents) && NoneBelow(at, path)
      requires parent.Some? ==> parent.value in folders
      modifies this
      ensures Valid() && Planted(old(Contents()), Contents(), d, contents, path, parent, contents.below.Keys)
      decreases contents, 1
    {
      ghost var s0 := Contents();
      ghost var done: set<string> := {};
      var rest := contents.below.Keys;
      NothingPlanted(s0, d, contents, path, parent);
      while rest != {}
        invariant rest <= contents.below.Keys && done == contents.below.Keys - rest
        invariant Valid() && Planted(s0, Contents(), d, contents, path, parent, done)
        decreases |rest|
      {
        var k :| k in rest;
        CreateFolder(d, contents, k, folderPath, parent, path, s0, done);
        done, rest := done + {k}, rest - {k};
      }
      assert done == contents.below.Keys;
    }

    /** One key: its folder, its place in the lookup, then everything below it. */
    method CreateFolder(d: Id, contents: Tree, k: string, folderPath: string, parent: Option<Id>,
                        ghost path: seq<string>, ghost s0: Import, ghost done: set<string>)
      requires Valid() && folderPath == Key(path) && Directories(path, contents)
      requires k in contents.below && k !in done && done <= contents.below.Keys
      requires NoneBelow(s0.at, path) && Issued(s0.folders, s0.next)
      requires Planted(s0, Contents(), d, contents, path, parent, done)
      requires parent.Some? ==> parent.value in folders
      modifies this
      ensures Valid() && Planted(s0, Contents(), d, contents, path, parent, done + {k})
      decreases contents, 0
    {
      ghost var s := Contents();
      ghost var sub := path + [k];
      DirectoriesBelow(path, contents, k);
      NextIsFree(s0, s, d, contents, path, parent, done, k);
      assert sub[..|path|] == path;
      var folderPath' := folderPath + "/" + k;
      var id := InsertFolder(d, k, folderPath', parent, sub);
      CreateFolderStructure(d, contents.below[k], folderPath', Some(id), sub);
      PlantedOneMore(s0, s, Contents(), d, contents, path, parent, done, k);
    }

    method InsertFolder(d: Id, name: string, key: string, parent: Option<Id>, ghost p: seq<string>) returns (id: Id)
      requires Valid() && Directory(p) && p[|p| - 1] == name && key == Key(p) && p !in at
      requires parent.Some? ==> parent.value in folders
      modifies this
      ensures Valid() && id == old(next) && id in folders && Contents() == Insert(old(Contents()), d, p, parent)
    {
      hide Directory, Mirrors;
      AddingKeepsAcyclic(folders, next, Folder(name, d, parent, None));
      MirrorsOneMore(lookup, at, p, next);
      id := next;
      next := next + 1;
      folders := folders[id := Folder(name, d, parent, None)];
      lookup := lookup[key := id];
      at := at[p := id];
    }

    /** The folders of a listing, with the lookup the file loop uses. */
    method ImportFolders(d: Id, listing: seq<string>)
      requires Valid() && lookup == map[] && at == map[]
      requires forall entry :: entry in listing ==> Unreserved(entry)
      modifies this
      ensures Valid() && Imported(old(Contents()), Contents(), lookup, d, listing)
    {
      var structure := DescribeZipContents(listing);
      forall p | p != [] && Has(structure, p) ensures Directory([] + p) {
        DescribedAreDirectories(listing, p);
        assert [] + p == p;
      }
      CreateFolderStructure(d, structure, "", None, []);
    }
  }

  /** The folders of the listing are there and the lookup knows them. */
  ghost predicate Imported(s: Import, s': Import, lookup: map<string, Id>, d: Id, listing: seq<string>) {
    && (forall entry :: entry in listing ==> Unreserved(entry))
    && s.at == map[] && Issued(s.folders, s.next)
    && Mirrors(lookup, s'.at) && Acyclic(s'.folders) && Closed(s'.folders)
    && Planted(s, s', d, Described(listing), [], None, Described(listing).below.Keys)
  }

  /** The folder an extracted file goes into. */
  function FolderFor(lookup: map<string, Id>, entry: string): Option<Id> {
    var foldername := "/" + DirName(entry);
    if foldername in lookup then Some(lookup[foldername]) else None
  }

  lemma DirectoriesKnown(s: Import, s': Import, lookup: map<string, Id>, d: Id, listing: seq<string>, p: seq<string>)
    requires Imported(s, s', lookup, d, listing)
    ensures p in s'.at <==> p != [] && Has(Described(listing), p)
  {
    assert p[..0] == [] && p[0..] == p;
    assert p in s'.at <==> Within(Described(listing), [], Described(listing).below.Keys, p);
  }

  lemma DirectoryIsPlaced(s: Import, s': Import, lookup: map<string, Id>, d: Id, listing: seq<string>, p: seq<string>)
    requires Imported(s, s', lookup, d, listing) && p in s'.at
    ensures Placed(s', d, [], None, p) && s'.at[p] !in s.folders
  {
    assert p[..0] == [] && p[0..] == p;
    assert Within(Described(listing), [], Described(listing).below.Keys, p);
  }

  /** The folder of a directory has the directory's names. */
  lemma {:induction false} FolderNames(s: Import, s': Import, lookup: map<string, Id>, d: Id, listing: seq<string>, p: seq<string>)
    requires Imported(s, s', lookup, d, listing) && p in s'.at
    ensures s'.at[p] in s'.folders && Names(s'.folders, s'.at[p]) == p
    decreases |p|
  {
    hide Directory;
    DirectoryIsPlaced(s, s', lookup, d, listing, p);
    NamesUnfold(s'.folders, s'.at[p]);
    assert p == p[..|p| - 1] + [p[|p| - 1]];
    if |p| > 1 {
      FolderNames(s, s', lookup, d, listing, p[..|p| - 1]);
      assert HasParent(s'.folders, s'.at[p]);
    } else {
      assert p[..|p| - 1] == [];
    }
  }

  /** Every directory has a new folder ... */
  lemma DirectoryHasItsFolder(s: Import, s': Import, lookup: map<string, Id>, d: Id, listing: seq<string>, p: seq<string>)
    requires Imported(s, s', lookup, d, listing) && p != [] && Has(Described(listing), p)
    ensures p in s'.at && Key(p) in lookup && lookup[Key(p)] == s'.at[p]
    ensures s'.at[p] in s'.folders && s'.at[p] !in s.folders && Names(s'.folders, s'.at[p]) == p
    ensures s'.folders[s'.at[p]].dataset == d
  {
    DirectoriesKnown(s, s', lookup, d, listing, p);
    DirectoryIsPlaced(s, s', lookup, d, listing, p);
    FolderNames(s, s', lookup, d, listing, p);
  }

  /** ... that it shares with no other, */
  lemma NoSharedFolder(s: Import, s': Import, lookup: map<string, Id>, d: Id, listing: seq<string>,
                       p: seq<string>, q: seq<string>)
    requires Imported(s, s', lookup, d, listing) && p != [] && q != []
    requires Has(Described(listing), p) && Has(Described(listing), q)
    ensures Key(p) in lookup && Key(q) in lookup && (lookup[Key(p)] == lookup[Key(q)] <==> p == q)
  {
    DirectoryHasItsFolder(s, s', lookup, d, listing, p);
    DirectoryHasItsFolder(s, s', lookup, d, listing, q);
  }

  /** ... and the folders there were are as before, ... */
  lemma OldFoldersStay(s: Import, s': Import, lookup: map<string, Id>, d: Id, listing: seq<string>, k: Id)
    requires Imported(s, s', lookup, d, listing) && k in s.folders
    ensures k in s'.folders && s'.folders[k] == s.folders[k]
  {
  }

  /** ... and every new folder is that of a directory. */
  lemma NoOtherFolder(s: Import, s': Import, lookup: map<string, Id>, d: Id, listing: seq<string>, k: Id)
    requires Imported(s, s', lookup, d, listing) && k in s'.folders && k !in s.folders
    ensures exists p :: p != [] && Has(Described(listing), p) && Key(p) in lookup && lookup[Key(p)] == k
  {
    assert ForSome(s', Described(listing), [], Described(listing).below.Keys, k);
    var p :| Within(Described(listing), [], Described(listing).below.Keys, p) && p in s'.at && s'.at[p] == k;
    DirectoriesKnown(s, s', lookup, d, listing, p);
    DirectoryHasItsFolder(s, s', lookup, d, listing, p);
  }

  /** The folder of an entry's directory: the directory by its parts, or by its name in one piece. */
  lemma FolderByDirectory(lookup: map<string, Id>, at: map<seq<string>, Id>, dir: string)
    requires Mirrors(lookup, at)
    ensures "/" + dir in lookup <==> Split(dir) in at || [dir] in at
    ensures Split(dir) in at ==> lookup["/" + dir] == at[Split(dir)]
    ensures [dir] in at ==> lookup["/" + dir] == at[[dir]]
  {
    JoinSplit(dir);
    KeyIsJoined(Split(dir));
    KeyIsJoined([dir]);
    if "/" + dir in lookup {
      var p :| p in at && Key(p) == "/" + dir;
      KeyIsJoined(p);
      assert Key(p)[1..] == Join(p) == ("/" + dir)[1..] == dir;
      DirectoryIsSplit(p);
    }
  }

  /** The directory the lookup answers for `dir`. */
  function Found(listing: seq<string>, dir: string): seq<string> {
    if Brought(listing, Split(dir)) then Split(dir) else [dir]
  }

  /** A file's folder is found exactly when its directory is brought in and not thrown away again. */
  lemma FileFindsItsFolderIff(s: Import, s': Import, lookup: map<string, Id>, d: Id, listing: seq<string>, entry: string)
    requires Imported(s, s', lookup, d, listing)
    ensures FolderFor(lookup, entry).Some? <==>
            Brought(listing, Split(DirName(entry))) || Brought(listing, [DirName(entry)])
    ensures FolderFor(lookup, entry).Some? ==>
              Found(listing, DirName(entry)) in s'.at &&
              FolderFor(lookup, entry) == Some(s'.at[Found(listing, DirName(entry))])
  {
    var dir := DirName(entry);
    FolderByDirectory(lookup, s'.at, dir);
    DirectoriesKnown(s, s', lookup, d, listing, Split(dir));
    DirectoriesKnown(s, s', lookup, d, listing, [dir]);
    DescribedHasExactly(listing, Split(dir));
    DescribedHasExactly(listing, [dir]);
  }

  /** The folder's export path and the base name spell the entry exactly when nothing but one separator
      stands between the directory and the base name and the directory has no empty name. */
  lemma FileIsSpelledBackIff(s: Import, s': Import, lookup: map<string, Id>, d: Id, listing: seq<string>, entry: string)
    requires Imported(s, s', lookup, d, listing) && FolderFor(lookup, entry).Some?
    ensures var folder, dir, base := FolderFor(lookup, entry).value, DirName(entry), BaseName(entry);
            && folder in s'.folders && Hierarchy(s'.folders, folder, "").Ok?
            && (Hierarchy(s'.folders, folder, "").value + base == entry <==>
                dir == "" || (entry == dir + "/" + base && NoneEmpty(Found(listing, dir))))
  {
    var dir := DirName(entry);
    var p := Found(listing, dir);
    FileFindsItsFolderIff(s, s', lookup, d, listing, entry);
    FolderNames(s, s', lookup, d, listing, p);
    NamesSpell(s'.folders, s'.at[p], p);
    JoinSplit(dir);
    SpelledOrNot(p, entry);
  }

  lemma NamesSpell(fs: Folders, f: Id, names: seq<string>)
    requires Acyclic(fs) && Closed(fs) && f in fs && Names(fs, f) == names && Directory(names)
    ensures Hierarchy(fs, f, "") == Ok(Spell(names))
  {
    HierarchySpellsNames(fs, f, "");
    assert LastAbsolute(names) == 0;
    hide Hierarchy, Spell;
    assert names[0..] == names && Spell(names) + "" == Spell(names);
  }

  lemma SpelledOrNot(p: seq<string>, entry: string)
    requires Directory(p) && Join(p) == DirName(entry)
    ensures Spell(p) + BaseName(entry) == entry <==>
            DirName(entry) == "" || (entry == DirName(entry) + "/" + BaseName(entry) && NoneEmpty(p))
  {
    var dir, base, head := DirName(entry), BaseName(entry), entry[..LastPart(entry)];
    SpelledDirectory(p);
    EntryInParts(entry);
    if dir == "" {
      NoNames(p);
    } else if !NoneEmpty(p) {
      TooShort(Spell(p), dir, head, base);
    }
  }

  lemma NoNames(p: seq<string>)
    requires p != []
    ensures Join(p) == "" ==> Spell(p) == ""
  {
    if |p| == 1 {
      assert p[..0] == [] && Spell(p) == "" + Separated(p[0]);
    }
  }

  lemma TooShort(spelled: string, dir: string, head: string, base: string)
    requires |spelled| <= |dir| && dir <= head && !Absolute(spelled) && dir != "" && (dir == head ==> Absolute(dir))
    ensures spelled + base != head + base
  {
    if |spelled| == |head| {
      assert dir == head && spelled != head;
      assert (spelled + base)[..|head|] == spelled && (head + base)[..|head|] == head;
    }
  }

  lemma NormalIsFoundByParts(listing: seq<string>, entry: string)
    requires Normal(entry) && DirName(entry) != ""
    ensures NoneEmpty(Found(listing, DirName(entry)))
  {
    hide PartsOf;
    NormalInParts(entry);
    var parts := Split(entry);
    assert forall i :: 0 <= i < |parts| - 1 ==> parts[..|parts| - 1][i] == parts[i];
  }

  /** The round trip: where top-level directory entries stand first, every file entry in normal form lands
      where its export path is its entry again. */
  lemma ZipRoundTrip(s: Import, s': Import, lookup: map<string, Id>, d: Id, listing: seq<string>, i: nat)
    requires Imported(s, s', lookup, d, listing) && TopFirst(listing)
    requires i < |listing| && !Skipped(listing[i]) && Normal(listing[i])
    ensures match FolderFor(lookup, listing[i])
            case Some(f) => f in s'.folders && Hierarchy(s'.folders, f, "").Ok? &&
                            Hierarchy(s'.folders, f, "").value + BaseName(listing[i]) == listing[i]
            case None => BaseName(listing[i]) == listing[i]
  {
    hide Imported, Brought, NoneEmpty, Normal, Skipped, TopFirst, Hierarchy, Split;
    var entry := listing[i];
    NormalInParts(entry);
    FileFindsItsFolderIff(s, s', lookup, d, listing, entry);
    if |PartsOf(entry)| > 1 {
      FileDirectoriesAreDescribed(listing, i);
      DescribedHasExactly(listing, Split(DirName(entry)));
    }
    if FolderFor(lookup, entry).Some? {
      if DirName(entry) != "" {
        NormalIsFoundByParts(listing, entry);
      }
      FileIsSpelledBackIff(s, s', lookup, d, listing, entry);
    }
  }
}
