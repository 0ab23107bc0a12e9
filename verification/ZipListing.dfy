/** What a zip listing says about directories: the nested dictionary the import builds from it. */
module ZipListing {
  import opened Strings
  import opened Paths
  import opened EntryNames

  // ----- Entry names -----

  /** The key the dictionary keeps its file lists under. */
  const FILE_LIST := "__CLOWDER_FILE_LIST__"

  predicate Skipped(entry: string) {
    Contains(entry, "__MACOSX") || EndsWith(entry, ".DS_Store")
  }

  /** What macOS adds to an archive: anything with its directory in the name, and anything that ends like its
      file. */
  lemma SkippedIff(entry: string)
    ensures Skipped(entry) <==>
            (exists a: string, b: string :: entry == a + "__MACOSX" + b) || (exists a: string :: entry == a + ".DS_Store")
  {
    ContainsIff(entry, "__MACOSX");
    EndsWithIff(entry, ".DS_Store");
    hide Contains, EndsWith;
  }

  /** No directory of the entry has the name of the file lists. */
  predicate Unreserved(entry: string) {
    Skipped(entry) ||
    if TopLevel(entry) then WithoutSlashes(entry) != FILE_LIST
    else FILE_LIST !in PartsOf(entry)[..|PartsOf(entry)| - 1]
  }

  // ----- The dictionary -----

  /** The directories; file lists are not modelled. */
  datatype Tree = Tree(below: map<string, Tree>)

  const BARE := Tree(map[])

  /** Directory `p` is in the tree; the root always is. */
  predicate Has(t: Tree, p: seq<string>)
    decreases |p|
  {
    p == [] || (p[0] in t.below && Has(t.below[p[0]], p[1..]))
  }

  /** `path_parts_to_dict`. The last part becomes a file, of a directory entry too: the recursion
      drops the flag that says otherwise. */
  function PathPartsToDict(parts: seq<string>): Tree
    requires parts != []
  {
    if |parts| == 1 then BARE else Tree(map[parts[0] := PathPartsToDict(parts[1..])])
  }

  function Below(t: Tree, k: string): Tree {
    if k in t.below then t.below[k] else BARE
  }

  /** What the recursive update makes of two dictionaries. */
  function Merge(t: Tree, u: Tree): Tree
    decreases u
  {
    Tree(map k | k in t.below.Keys + u.below.Keys ::
           if k in u.below then Merge(Below(t, k), u.below[k]) else t.below[k])
  }

  /** The merge as far as the keys `done` go. */
  function Merged(t: Tree, u: Tree, done: set<string>): map<string, Tree>
    requires done <= u.below.Keys
  {
    map k | k in t.below.Keys + done :: if k in done then Merge(Below(t, k), u.below[k]) else t.below[k]
  }

  lemma MergedStep(t: Tree, u: Tree, done: set<string>, k: string)
    requires done <= u.below.Keys && k in u.below && k !in done
    ensures (if k in Merged(t, u, done) then Merged(t, u, done)[k] else BARE) == Below(t, k)
    ensures Merged(t, u, done)[k := Merge(Below(t, k), u.below[k])] == Merged(t, u, done + {k})
  {
  }

  lemma MergedEnds(t: Tree, u: Tree)
    ensures Merged(t, u, {}) == t.below && Merged(t, u, u.below.Keys) == Merge(t, u).below
  {
  }

  /** The update as it runs: one assignment per key. */
  method NestedUpdate(t: Tree, u: Tree) returns (r: Tree)
    ensures r == Merge(t, u)
    decreases u
  {
    var below := t.below;
    var rest := u.below.Keys;
    MergedEnds(t, u);
    assert u.below.Keys - rest == {};
    while rest != {}
      invariant rest <= u.below.Keys && below == Merged(t, u, u.below.Keys - rest)
      decreases |rest|
    {
      var k :| k in rest;
      MergedStep(t, u, u.below.Keys - rest, k);
      var sub := NestedUpdate(if k in below then below[k] else BARE, u.below[k]);
      below := below[k := sub];
      assert (u.below.Keys - rest) + {k} == u.below.Keys - (rest - {k});
      rest := rest - {k};
    }
    assert u.below.Keys - rest == u.below.Keys;
    r := Tree(below);
  }

  lemma {:induction false} MergeHasBoth(t: Tree, u: Tree, p: seq<string>)
    ensures Has(Merge(t, u), p) <==> Has(t, p) || Has(u, p)
    decreases |p|
  {
    if p != [] {
      assert p[0] in Merge(t, u).below <==> p[0] in t.below || p[0] in u.below;
      if p[0] in u.below {
        MergeHasBoth(Below(t, p[0]), u.below[p[0]], p[1..]);
        BareHasRootOnly(p[1..]);
      }
    }
  }

  lemma BareHasRootOnly(p: seq<string>)
    ensures Has(BARE, p) <==> p == []
  {
  }

  lemma {:induction false} DictHasProperPrefixes(parts: seq<string>, p: seq<string>)
    requires parts != []
    ensures Has(PathPartsToDict(parts), p) <==> |p| < |parts| && p == parts[..|p|]
    decreases |p|
  {
    if p != [] && |parts| > 1 {
      if p[0] == parts[0] {
        DictHasProperPrefixes(parts[1..], p[1..]);
        assert |p| < |parts| && p[1..] == parts[1..][..|p| - 1] ==> p == [p[0]] + p[1..] == parts[..|p|];
        assert |p| < |parts| && p == parts[..|p|] ==> p[1..] == parts[1..][..|p| - 1];
      }
    }
  }

  // ----- The listing -----

  /** A directory entry right below the root. */
  predicate TopLevel(entry: string) {
    EndsWithSlash(entry) && |PartsOf(entry)| == 1
  }

  /** One entry. A top-level directory entry always starts over: the lookup that should prevent it
      uses the name with its separator, which is never a key. Its name is not normalised. */
  function AddEntry(t: Tree, entry: string): Tree {
    var parts := PartsOf(entry);
    if Skipped(entry) then t
    else if TopLevel(entry) then Tree(t.below[WithoutSlashes(entry) := BARE])
    else if |parts| > 1 then Merge(t, PathPartsToDict(parts))
    else t
  }

  function Described(listing: seq<string>): Tree {
    if listing == [] then BARE else AddEntry(Described(listing[..|listing| - 1]), listing[|listing| - 1])
  }

  /** The loop over the listing. */
  method DescribeZipContents(listing: seq<string>) returns (structure: Tree)
    requires forall entry :: entry in listing ==> Unreserved(entry)
    ensures structure == Described(listing)
  {
    structure := BARE;
    for i := 0 to |listing|
      invariant structure == Described(listing[..i])
    {
      assert listing[..i + 1][..i] == listing[..i];
      var entry := listing[i];
      var parts := PartsOf(entry);
      if Skipped(entry) {
        continue;
      }
      if EndsWithSlash(entry) {
        if |parts| > 1 {
          structure := NestedUpdate(structure, PathPartsToDict(parts));
        } else {
          structure := Tree(structure.below[WithoutSlashes(entry) := BARE]);
        }
        continue;
      }
      if |parts| > 1 {
        structure := NestedUpdate(structure, PathPartsToDict(parts));
      }
    }
    assert listing[..|listing|] == listing;
  }

  /** The directories an entry brings in: a top-level directory itself, otherwise only what is above
      the entry, even if the entry is a directory. */
  predicate Brings(entry: string, p: seq<string>) {
    && !Skipped(entry) && p != []
    && if TopLevel(entry) then p == [WithoutSlashes(entry)] else |p| < |PartsOf(entry)| && p == PartsOf(entry)[..|p|]
  }

  predicate Resets(entry: string, top: string) {
    !Skipped(entry) && TopLevel(entry) && WithoutSlashes(entry) == top
  }

  /** Entry `i` brings `p` in and no later entry starts its top directory over. */
  predicate BroughtAt(listing: seq<string>, i: nat, p: seq<string>)
    requires i < |listing|
  {
    Brings(listing[i], p) && forall j :: i < j < |listing| ==> !Resets(listing[j], p[0])
  }

  predicate Brought(listing: seq<string>, p: seq<string>) {
    exists i :: 0 <= i < |listing| && BroughtAt(listing, i, p)
  }

  lemma EntryAdds(t: Tree, entry: string, p: seq<string>)
    requires p != []
    ensures Has(AddEntry(t, entry), p) <==> Brings(entry, p) || (Has(t, p) && !Resets(entry, p[0]))
  {
    var parts := PartsOf(entry);
    if !Skipped(entry) {
      if TopLevel(entry) {
        BareHasRootOnly(p[1..]);
        assert p[1..] == [] <==> p == [p[0]];
      } else if |parts| > 1 {
        MergeHasBoth(t, PathPartsToDict(parts), p);
        DictHasProperPrefixes(parts, p);
      }
    }
  }

  lemma BroughtStep(listing: seq<string>, entry: string, p: seq<string>)
    requires p != []
    ensures Brought(listing + [entry], p) <==> Brings(entry, p) || (Brought(listing, p) && !Resets(entry, p[0]))
  {
    var all, n := listing + [entry], |listing|;
    if Brings(entry, p) {
      assert BroughtAt(all, n, p);
    } else if Brought(listing, p) && !Resets(entry, p[0]) {
      var i :| 0 <= i < n && BroughtAt(listing, i, p);
      assert BroughtAt(all, i, p);
    }
    if Brought(all, p) && !Brings(entry, p) {
      var i :| 0 <= i < n + 1 && BroughtAt(all, i, p);
      assert all[n] == entry && i < n;
      forall j | i < j < n ensures !Resets(listing[j], p[0]) {
        assert all[j] == listing[j];
      }
      assert BroughtAt(listing, i, p);
    }
  }

  /** Exactly the directories that some entry brings in and no later entry throws away. */
  lemma {:induction false} DescribedHasExactly(listing: seq<string>, p: seq<string>)
    requires p != []
    ensures Has(Described(listing), p) <==> Brought(listing, p)
  {
    if listing == [] {
      BareHasRootOnly(p);
    } else {
      var before, last := listing[..|listing| - 1], listing[|listing| - 1];
      assert listing == before + [last];
      DescribedHasExactly(before, p);
      EntryAdds(Described(before), last, p);
      BroughtStep(before, last, p);
    }
  }

  /** Every top-level directory entry stands before everything else below that directory. */
  predicate TopFirst(listing: seq<string>) {
    forall i, j :: 0 <= i < j < |listing| && !Skipped(listing[i]) && |PartsOf(listing[i])| > 1 ==>
      !Resets(listing[j], PartsOf(listing[i])[0])
  }

  /** In such a listing every file's directory is described. */
  lemma FileDirectoriesAreDescribed(listing: seq<string>, i: nat)
    requires TopFirst(listing) && i < |listing| && !Skipped(listing[i]) && |PartsOf(listing[i])| > 1
    ensures Has(Described(listing), PartsOf(listing[i])[..|PartsOf(listing[i])| - 1])
  {
    var parts := PartsOf(listing[i]);
    assert BroughtAt(listing, i, parts[..|parts| - 1]);
    DescribedHasExactly(listing, parts[..|parts| - 1]);
  }

  /** A listing in which the top-level entry comes last: the directory of the file is gone. */
  lemma LateTopEntryForgets()
    ensures !Has(Described(["a/b/f", "a/"]), ["a", "b"])
  {
    var listing := ["a/b/f", "a/"];
    TopEntryResets();
    hide Resets, Skipped, AddEntry, TopLevel;
    assert listing[..1] + ["a/"] == listing;
    assert Described(listing) == AddEntry(Described(listing[..1]), "a/");
    EntryAdds(Described(listing[..1]), "a/", ["a", "b"]);
    assert ["a", "b"] != ["a"];
  }

  lemma TopEntryResets()
    ensures Resets("a/", "a") && forall p :: Brings("a/", p) <==> p == ["a"]
  {
    OneName("a");
    NotSkipped("a/");
    hide Skipped, PartsOf;
    assert "a/"[..1] == "a" && WithoutSlashes("a/") == WithoutSlashes("a") == "a";
  }

  lemma OneName(name: string)
    requires '/' !in name && !Absolute(name) && !Absolute(name + "/")
    ensures |PartsOf(name + "/")| == 1
  {
    OneSlashLess(name);
    AbsoluteHasTwoParts(name);
  }

  /** What the import makes of the tree: directories, each known by its name, none reserved. */
  lemma {:induction false} DescribedAreDirectories(listing: seq<string>, p: seq<string>)
    requires (forall entry :: entry in listing ==> Unreserved(entry)) && Has(Described(listing), p) && p != []
    ensures Directory(p) && FILE_LIST !in p
  {
    DescribedHasExactly(listing, p);
    var i :| 0 <= i < |listing| && BroughtAt(listing, i, p);
    assert Unreserved(listing[i]);
    if TopLevel(listing[i]) {
      TopIsDirectory(listing[i]);
    } else {
      PrefixIsDirectory(listing[i], |p|);
    }
  }

  // ----- Reading an entry back -----

  /** A file entry that normalisation leaves as it is, with no empty part. */
  predicate Normal(entry: string) {
    PartsOf(entry) == Split(entry) && NoneEmpty(Split(entry))
  }

  /** The directory and the base name of an entry. */
  lemma EntryInParts(entry: string)
    ensures entry == entry[..LastPart(entry)] + BaseName(entry)
    ensures DirName(entry) <= entry[..LastPart(entry)]
    ensures DirName(entry) == entry[..LastPart(entry)] && DirName(entry) != "" ==> Absolute(DirName(entry))
  {
    var head := entry[..LastPart(entry)];
    if head != "" {
      assert EndsWithSlash(head);
      HeadIsSlashes(head);
    }
  }

  lemma {:induction false} HeadIsSlashes(s: string)
    ensures WithoutSlashes(s) == "" && s != "" ==> Absolute(s)
  {
    if EndsWithSlash(s) && |s| > 1 {
      HeadIsSlashes(s[..|s| - 1]);
    }
  }

  /** ... of a normal one. */
  lemma NormalInParts(entry: string)
    requires Normal(entry)
    ensures var parts := PartsOf(entry);
            && (|parts| == 1 ==> DirName(entry) == "" && BaseName(entry) == entry)
            && (|parts| > 1 ==> Split(DirName(entry)) == parts[..|parts| - 1] && entry == DirName(entry) + "/" + BaseName(entry))
  {
    hide PartsOf;
    var i := LastPart(entry);
    if i == 0 {
      assert entry[..0] == "" && entry[0..] == entry;
    } else {
      var dir, parts := entry[..i - 1], Split(entry);
      assert parts == Split(dir) + [entry[i..]] && parts[..|parts| - 1] == Split(dir);
      assert forall j :: 0 <= j < |Split(dir)| ==> Split(dir)[j] == parts[j];
      EmptyAtTheEnd(dir);
      assert entry[..i] == dir + "/";
      DirNameOf(dir, entry);
    }
  }

  lemma DirNameOf(dir: string, entry: string)
    requires entry[..LastPart(entry)] == dir + "/" && dir != "" && !EndsWithSlash(dir)
    ensures DirName(entry) == dir && entry == dir + "/" + BaseName(entry)
  {
    assert (dir + "/")[..|dir|] == dir;
    assert WithoutSlashes(dir + "/") == WithoutSlashes(dir) == dir;
  }

  lemma EmptyAtTheEnd(dir: string)
    ensures dir == "" || EndsWithSlash(dir) ==> !NoneEmpty(Split(dir))
  {
    if EndsWithSlash(dir) {
      assert LastPart(dir) == |dir|;
      assert Split(dir)[|Split(dir)| - 1] == "";
    } else if dir == "" {
      assert Split(dir)[0] == "";
    }
  }

  /** An entry with a dot in it: its directory is made under another name than the file asks for. */
  lemma DottedEntryMissesItsFolder()
    ensures var listing := ["a/./f"];
            && Brought(listing, ["a"]) && DirName("a/./f") == "a/."
            && !Brought(listing, Split("a/.")) && !Brought(listing, ["a/."])
  {
    DottedParts();
    DottedNames();
    NotSkipped("a/./f");
    assert BroughtAt(["a/./f"], 0, ["a"]) by {
      assert ["a", "f"][..1] == ["a"];
    }
    hide Skipped, PartsOf, Split, DirName;
  }

  lemma NotSkipped(entry: string)
    requires |entry| < 8
    ensures !Skipped(entry)
  {
  }

  lemma DottedParts()
    ensures PartsOf("a/./f") == ["a", "f"]
  {
    var parts := ["a", ".", "f"];
    assert parts[..2] == ["a", "."] && ["a", "."][..1] == ["a"];
    assert Join(parts) == "a/./f";
    SplitJoin(parts);
    assert Collapsed(parts, false) == ["a", "f"];
    PartsAre("a/./f");
    assert Empties(0) + ["a", "f"] == ["a", "f"];
  }

  lemma DottedNames()
    ensures DirName("a/./f") == "a/." && Split("a/.") == ["a", "."]
  {
    var dir := "a/.";
    assert dir + "/" + "f" == "a/./f";
    LastPartOf(dir, "f");
    AroundSeparator(dir, "f");
    DirNameOf(dir, "a/./f");
    assert ["a", "."][..1] == ["a"] && Join(["a", "."]) == dir;
    SplitJoin(["a", "."]);
  }
}
