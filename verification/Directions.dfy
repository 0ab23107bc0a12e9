/** What a path means: directions to follow, part by part, from where one stands. */
module Directions {
  import opened Paths
  import opened EntryNames

  /** One part: nothing and a dot stay, two dots go up, which at the root is nowhere, a name goes down. */
  function Go(at: seq<string>, part: string): seq<string> {
    if part == "" || part == "." then at
    else if part == ".." then if at == [] then [] else at[..|at| - 1]
    else at + [part]
  }

  function Walk(start: seq<string>, parts: seq<string>): seq<string> {
    if parts == [] then start else Go(Walk(start, parts[..|parts| - 1]), parts[|parts| - 1])
  }

  /** Where the path leads from `start`; an absolute one starts at the root. */
  function LeadsTo(start: seq<string>, s: string): seq<string> {
    Walk(if Absolute(s) then [] else start, Split(s))
  }

  lemma WalkOneMore(start: seq<string>, parts: seq<string>, part: string)
    ensures Walk(start, parts + [part]) == Go(Walk(start, parts), part)
  {
    assert (parts + [part])[..|parts|] == parts;
  }

  /** Collapsing parts does not change where they lead. */
  lemma {:induction false} CollapsedLeadsThere(start: seq<string>, parts: seq<string>, rooted: bool)
    requires SlashFree(parts) && (rooted ==> start == [])
    ensures Walk(start, Collapsed(parts, rooted)) == Walk(start, parts)
  {
    if parts != [] {
      var front, part := parts[..|parts| - 1], parts[|parts| - 1];
      CollapsedLeadsThere(start, front, rooted);
      CollapsedIsClean(front, rooted);
      StepLeadsThere(start, Collapsed(front, rooted), rooted, part);
    }
  }

  lemma StepLeadsThere(start: seq<string>, parts: seq<string>, rooted: bool, part: string)
    requires Clean(parts, rooted) && (rooted ==> start == [])
    ensures Walk(start, Step(parts, rooted, part)) == Go(Walk(start, parts), part)
  {
    if Step(parts, rooted, part) == parts + [part] {
      WalkOneMore(start, parts, part);
    } else if part == ".." && parts != [] {
      var front, last := parts[..|parts| - 1], parts[|parts| - 1];
      assert parts == front + [last];
      WalkOneMore(start, front, last);
      assert (Walk(start, front) + [last])[..|Walk(start, front)|] == Walk(start, front);
    }
  }

  lemma {:induction false} EmptiesLeadNowhere(start: seq<string>, k: nat, parts: seq<string>)
    ensures Walk(start, Empties(k) + parts) == Walk(start, parts)
    decreases |parts|, k
  {
    var all := Empties(k) + parts;
    if parts != [] {
      assert all[..|all| - 1] == Empties(k) + parts[..|parts| - 1];
      EmptiesLeadNowhere(start, k, parts[..|parts| - 1]);
    } else if k > 0 {
      assert all[..k - 1] == Empties(k - 1) + [];
      EmptiesLeadNowhere(start, k - 1, []);
    }
  }

  /** The normal form of a path leads where the path leads, wherever one stands. */
  lemma NormPathLeadsThere(start: seq<string>, s: string)
    ensures LeadsTo(start, NormPath(s)) == LeadsTo(start, s)
  {
    var k := LeadingSlashes(s);
    var from := if Absolute(s) then [] else start;
    var parts := Collapsed(Split(s), k > 0);
    JoinSplit(s);
    CollapsedLeadsThere(from, Split(s), k > 0);
    PartsAre(s);
    LeadingSlashesStay(s);
    RootedLeadsThere(from, k, parts);
    hide Split, Collapsed, Rooted, Walk;
  }

  lemma RootedLeadsThere(start: seq<string>, k: nat, parts: seq<string>)
    ensures Walk(start, Rooted(k, parts)) == Walk(start, parts)
  {
    if parts != [] {
      EmptiesLeadNowhere(start, k, parts);
    } else if k == 0 {
      assert Walk(start, ["."]) == Go(Walk(start, ["."][..0]), ".");
    } else {
      EmptiesLeadNowhere(start, k + 1, []);
      assert Empties(k + 1) + [] == Empties(k + 1);
    }
  }

  /** How many separators a path begins with, as far as the first three go. */
  predicate BeginsWith(s: string, slashes: nat) {
    slashes <= |s| && (forall i :: 0 <= i < slashes ==> s[i] == '/') && (slashes < |s| ==> s[slashes] != '/')
  }

  lemma SlashesInFront(k: nat, body: string)
    requires body == "" || body[0] != '/'
    ensures BeginsWith(Slashes(k) + body, k)
  {
  }

  lemma CleanBegins(parts: seq<string>, rooted: bool)
    requires Clean(parts, rooted)
    ensures Join(parts) == "" || Join(parts)[0] != '/'
  {
    if parts != [] {
      JoinIsLong(parts);
      assert parts[0] != "" && parts[0][0] in parts[0];
      assert Join(parts)[0] == parts[0][0];
    }
  }

  /** A relative path stays relative; two leading separators stay two, any other number of them becomes one. */
  lemma LeadingSlashesStay(s: string)
    ensures Absolute(NormPath(s)) <==> Absolute(s)
    ensures BeginsWith(NormPath(s), if !Absolute(s) then 0 else if BeginsWith(s, 2) then 2 else 1)
  {
    var k := LeadingSlashes(s);
    var parts := Collapsed(Split(s), k > 0);
    assert k == if !Absolute(s) then 0 else if BeginsWith(s, 2) then 2 else 1;
    PartsAre(s);
    CleanBegins(parts, k > 0);
    SlashesInFront(k, Join(parts));
    assert |Slashes(k)| == k;
    hide Split, Collapsed, Clean, Join, LeadingSlashes, PartsOf, Slashes;
  }
}
