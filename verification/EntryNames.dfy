/** Names of zip entries: splitting, joining and normalising paths the way the `os.path` functions do on POSIX. */
module EntryNames {
  import opened Paths

  // ----- Splitting and joining -----

  /** Where the part after the last separator begins. */
  function LastPart(s: string): (i: nat)
    ensures i <= |s|
    ensures i > 0 ==> s[i - 1] == '/'
    ensures '/' !in s[i..]
  {
    if s == "" then 0
    else if s[|s| - 1] == '/' then |s|
    else
      var i := LastPart(s[..|s| - 1]);
      assert s[i..] == s[..|s| - 1][i..] + [s[|s| - 1]];
      i
  }

  /** `s.split("/")` */
  function Split(s: string): (parts: seq<string>)
    ensures parts != []
  {
    var i := LastPart(s);
    if i == 0 then [s] else Split(s[..i - 1]) + [s[i..]]
  }

  function Join(parts: seq<string>): string {
    if parts == [] then ""
    else if |parts| == 1 then parts[0]
    else Join(parts[..|parts| - 1]) + "/" + parts[|parts| - 1]
  }

  predicate SlashFree(parts: seq<string>) {
    forall i :: 0 <= i < |parts| ==> '/' !in parts[i]
  }

  lemma {:induction false} JoinSplit(s: string)
    ensures Join(Split(s)) == s && SlashFree(Split(s))
  {
    var i := LastPart(s);
    if i > 0 {
      JoinSplit(s[..i - 1]);
      assert Split(s)[..|Split(s)| - 1] == Split(s[..i - 1]);
      assert s == s[..i - 1] + "/" + s[i..];
    } else {
      assert s[0..] == s;
    }
  }

  lemma {:induction false} LastPartOf(a: string, b: string)
    requires '/' !in b
    ensures LastPart(a + "/" + b) == |a| + 1
    decreases |b|
  {
    var s := a + "/" + b;
    if b != [] {
      var c := b[..|b| - 1];
      assert s[..|s| - 1] == a + "/" + c;
      assert s[|s| - 1] == b[|b| - 1] && b[|b| - 1] in b;
      assert forall x :: x in c ==> x in b;
      LastPartOf(a, c);
    } else {
      assert s[|s| - 1] == '/';
    }
  }

  lemma {:induction false} NoSeparatorNoParent(b: string)
    requires '/' !in b
    ensures LastPart(b) == 0
  {
    if b != "" {
      assert b[|b| - 1] in b;
      assert forall x :: x in b[..|b| - 1] ==> x in b;
      NoSeparatorNoParent(b[..|b| - 1]);
    }
  }

  lemma AroundSeparator(a: string, b: string)
    ensures (a + "/" + b)[..|a|] == a && (a + "/" + b)[|a| + 1..] == b
  {
  }

  lemma {:induction false} SplitJoin(parts: seq<string>)
    requires SlashFree(parts) && parts != []
    ensures Split(Join(parts)) == parts
  {
    var last := parts[|parts| - 1];
    if |parts| == 1 {
      NoSeparatorNoParent(last);
    } else {
      var front := parts[..|parts| - 1];
      SplitJoin(front);
      LastPartOf(Join(front), last);
      AroundSeparator(Join(front), last);
      assert parts == front + [last];
    }
  }

  /** `os.path.basename` */
  function BaseName(s: string): string {
    s[LastPart(s)..]
  }

  /** `s.rstrip("/")` */
  function WithoutSlashes(s: string): (r: string)
    ensures !EndsWithSlash(r) && r <= s
  {
    if EndsWithSlash(s) then WithoutSlashes(s[..|s| - 1]) else s
  }

  /** `os.path.dirname`: a head that is more than separators loses its trailing separators. */
  function DirName(s: string): string {
    var head := s[..LastPart(s)];
    if WithoutSlashes(head) == "" then head else WithoutSlashes(head)
  }

  // ----- Normal form -----

  /** One leading separator stays one, two stay two, three or more become one. */
  function LeadingSlashes(s: string): (k: nat)
    ensures k <= 2
  {
    if !Absolute(s) then 0 else if |s| >= 2 && s[1] == '/' && !(|s| >= 3 && s[2] == '/') then 2 else 1
  }

  /** A part that is empty or a dot is dropped; two dots take the part before along, if there is one. */
  function Step(parts: seq<string>, rooted: bool, part: string): seq<string> {
    if part == "" || part == "." then parts
    else if part != ".." || (!rooted && parts == []) || (parts != [] && parts[|parts| - 1] == "..") then parts + [part]
    else if parts != [] then parts[..|parts| - 1]
    else parts
  }

  function Collapsed(parts: seq<string>, rooted: bool): seq<string> {
    if parts == [] then [] else Step(Collapsed(parts[..|parts| - 1], rooted), rooted, parts[|parts| - 1])
  }

  function Slashes(k: nat): string {
    seq(k, _ => '/')
  }

  /** `os.path.normpath` */
  function NormPath(s: string): string {
    var k := LeadingSlashes(s);
    var path := Slashes(k) + Join(Collapsed(Split(s), k > 0));
    if path == "" then "." else path
  }

  /** The parts of an entry, a directory entry's too. */
  function PartsOf(entry: string): seq<string> {
    Split(NormPath(entry))
  }

  function Empties(k: nat): seq<string> {
    seq(k, _ => "")
  }

  /** `k` leading separators in front of `parts`, part by part. */
  function Rooted(k: nat, parts: seq<string>): seq<string> {
    if parts != [] then Empties(k) + parts else if k == 0 then ["."] else Empties(k + 1)
  }

  /** What the normal form leaves between the leading separators and the end. */
  predicate Clean(parts: seq<string>, rooted: bool) {
    forall i :: 0 <= i < |parts| ==>
      && '/' !in parts[i] && parts[i] != "" && parts[i] != "."
      && (parts[i] == ".." ==> !rooted && forall j :: 0 <= j < i ==> parts[j] == "..")
  }

  lemma {:induction false} CollapsedIsClean(parts: seq<string>, rooted: bool)
    requires SlashFree(parts)
    ensures Clean(Collapsed(parts, rooted), rooted)
  {
    if parts != [] {
      CollapsedIsClean(parts[..|parts| - 1], rooted);
      StepIsClean(Collapsed(parts[..|parts| - 1], rooted), rooted, parts[|parts| - 1]);
    }
  }

  lemma StepIsClean(parts: seq<string>, rooted: bool, part: string)
    requires Clean(parts, rooted) && '/' !in part
    ensures Clean(Step(parts, rooted, part), rooted)
  {
    if part == ".." && parts != [] && parts[|parts| - 1] == ".." {
      assert forall j :: 0 <= j < |parts| - 1 ==> parts[j] == "..";
    }
  }

  lemma {:induction false} CleanStays(parts: seq<string>, rooted: bool)
    requires Clean(parts, rooted)
    ensures Collapsed(parts, rooted) == parts
  {
    if parts != [] {
      var front, last := parts[..|parts| - 1], parts[|parts| - 1];
      CleanStays(front, rooted);
      if last == ".." && front != [] {
        assert parts[|parts| - 2] == "..";
      }
      assert front + [last] == parts;
    }
  }

  lemma {:induction false} EmptiesAreDropped(k: nat, parts: seq<string>, rooted: bool)
    ensures Collapsed(Empties(k) + parts, rooted) == Collapsed(parts, rooted)
    decreases |parts|, k
  {
    var all := Empties(k) + parts;
    if parts != [] {
      assert all[..|all| - 1] == Empties(k) + parts[..|parts| - 1];
      EmptiesAreDropped(k, parts[..|parts| - 1], rooted);
    } else if k > 0 {
      assert all[..k - 1] == Empties(k - 1) + [];
      EmptiesAreDropped(k - 1, [], rooted);
    } else {
      assert all == [];
    }
  }

  lemma {:induction false} JoinEmpties(k: nat)
    requires k > 0
    ensures Join(Empties(k)) == Slashes(k - 1)
  {
    if k > 1 {
      JoinEmpties(k - 1);
      JoinOneMore(Empties(k - 1), "");
      assert Empties(k) == Empties(k - 1) + [""] && Slashes(k - 1) == Slashes(k - 2) + "/" + "";
    }
  }

  lemma {:induction false} JoinRooted(k: nat, parts: seq<string>)
    requires parts != []
    ensures Join(Empties(k) + parts) == Slashes(k) + Join(parts)
    decreases |parts|
  {
    if k == 0 {
      assert Empties(0) + parts == parts && Slashes(0) + Join(parts) == Join(parts);
    } else if |parts| == 1 {
      JoinEmpties(k);
      JoinOneMore(Empties(k), parts[0]);
      assert Slashes(k) == Slashes(k - 1) + "/" && [parts[0]] == parts;
    } else {
      var front, last := parts[..|parts| - 1], parts[|parts| - 1];
      assert front + [last] == parts;
      JoinRooted(k, front);
      JoinRootedStep(k, front, last);
    }
  }

  lemma JoinRootedStep(k: nat, parts: seq<string>, last: string)
    requires parts != [] && Join(Empties(k) + parts) == Slashes(k) + Join(parts)
    ensures Join(Empties(k) + (parts + [last])) == Slashes(k) + Join(parts + [last])
  {
    JoinOneMore(Empties(k) + parts, last);
    JoinOneMore(parts, last);
    hide Join;
    assert Empties(k) + (parts + [last]) == Empties(k) + parts + [last];
    Associative(Slashes(k), Join(parts), "/");
    Associative(Slashes(k), Join(parts) + "/", last);
  }

  lemma JoinOneMore(parts: seq<string>, last: string)
    requires parts != []
    ensures Join(parts + [last]) == Join(parts) + "/" + last
  {
    assert (parts + [last])[..|parts|] == parts;
  }

  /** The parts of a normalised path. */
  lemma PartsAre(s: string)
    ensures var k := LeadingSlashes(s);
            var parts := Collapsed(Split(s), k > 0);
            && Clean(parts, k > 0) && PartsOf(s) == Rooted(k, parts)
  {
    var k := LeadingSlashes(s);
    var parts := Collapsed(Split(s), k > 0);
    JoinSplit(s);
    CollapsedIsClean(Split(s), k > 0);
    NormPathJoins(k, parts);
    RootedIsSlashFree(k, parts);
    SplitJoin(Rooted(k, parts));
    hide Split, Collapsed, Join, Rooted, LeadingSlashes, Clean;
  }

  lemma RootedIsSlashFree(k: nat, parts: seq<string>)
    requires Clean(parts, k > 0)
    ensures SlashFree(Rooted(k, parts)) && Rooted(k, parts) != []
  {
  }

  lemma NormPathJoins(k: nat, parts: seq<string>)
    requires Clean(parts, k > 0)
    ensures Join(Rooted(k, parts)) == if k == 0 && parts == [] then "." else Slashes(k) + Join(parts)
    ensures k == 0 && parts != [] ==> Slashes(k) + Join(parts) != ""
  {
    if parts != [] {
      JoinRooted(k, parts);
      JoinIsLong(parts);
    } else if k > 0 {
      assert Empties(k + 1) == Empties(k) + [""];
      JoinRooted(k, [""]);
    }
  }

  lemma {:induction false} JoinIsLong(parts: seq<string>)
    requires parts != []
    ensures |Join(parts)| >= |parts[0]| && Join(parts)[..|parts[0]|] == parts[0]
    ensures |parts| > 1 ==> |Join(parts)| > |parts[0]| && Join(parts)[|parts[0]|] == '/'
  {
    if |parts| > 1 {
      JoinIsLong(parts[..|parts| - 1]);
    }
  }

  /** An absolute path has two parts at least, a single name one. */
  lemma AbsoluteHasTwoParts(s: string)
    ensures Absolute(s) ==> |PartsOf(s)| >= 2
    ensures '/' !in s ==> |PartsOf(s)| == 1
  {
    PartsAre(s);
    if '/' !in s {
      NoSeparatorNoParent(s);
      assert !Absolute(s) by {
        assert s != "" ==> s[0] in s;
      }
      assert [s][..0] == [];
      assert |Collapsed([s], false)| <= 1;
    }
  }

  /** Normalising the front of a normalised path changes nothing. */
  lemma PrefixStays(s: string, n: nat)
    requires 2 <= n <= |PartsOf(s)|
    ensures PartsOf(Join(PartsOf(s)[..n])) == PartsOf(s)[..n]
  {
    var k := LeadingSlashes(s);
    var parts := Collapsed(Split(s), k > 0);
    PartsAre(s);
    hide PartsOf, Join, Collapsed, LeadingSlashes;
    if parts == [] {
      assert Empties(k + 1)[..n] == Empties(n);
      OnlySlashes(n - 1);
    } else if n <= k {
      assert (Empties(k) + parts)[..n] == Empties(n);
      OnlySlashes(n - 1);
    } else {
      assert (Empties(k) + parts)[..n] == Empties(k) + parts[..n - k];
      RootedStays(k, parts[..n - k]);
    }
  }

  lemma OnlySlashes(k: nat)
    requires 1 <= k <= 2
    ensures PartsOf(Join(Empties(k + 1))) == Empties(k + 1)
  {
    assert Empties(k + 1) == Empties(k) + [""];
    JoinRooted(k, [""]);
    var s := Join(Empties(k + 1));
    assert s == Slashes(k) && LeadingSlashes(s) == k;
    SplitJoin(Empties(k + 1));
    EmptiesAreDropped(k + 1, [], true);
    assert Empties(k + 1) + [] == Empties(k + 1);
    PartsAre(s);
  }

  lemma RootedStays(k: nat, parts: seq<string>)
    requires k <= 2 && Clean(parts, k > 0) && parts != []
    ensures PartsOf(Join(Empties(k) + parts)) == Empties(k) + parts
  {
    var s := Join(Empties(k) + parts);
    JoinRooted(k, parts);
    JoinIsLong(parts);
    assert parts[0] != "" && parts[0][0] in parts[0];
    assert s[k] == Join(parts)[0] == parts[0][0] != '/';
    assert LeadingSlashes(s) == k;
    SplitJoin(Empties(k) + parts);
    EmptiesAreDropped(k, parts, k > 0);
    CleanStays(parts, k > 0);
    PartsAre(s);
  }

  // ----- Directories -----

  /** A path the import may make a directory of: a normalised one, or a single name as it stands. */
  predicate Directory(p: seq<string>) {
    && p != [] && (PartsOf(Join(p)) == p || (|p| == 1 && |PartsOf(p[0])| == 1))
    && forall i :: 0 <= i < |p| ==> !Absolute(p[i]) && !EndsWithSlash(p[i])
  }

  /** Such a path is known by its joined name. */
  lemma DirectoryByName(p: seq<string>, q: seq<string>)
    requires Directory(p) && Directory(q) && Join(p) == Join(q)
    ensures p == q
  {
    hide PartsOf;
  }

  lemma SlashFreeNames(parts: seq<string>)
    requires SlashFree(parts)
    ensures forall i :: 0 <= i < |parts| ==> !Absolute(parts[i]) && !EndsWithSlash(parts[i])
  {
    forall i | 0 <= i < |parts| ensures !Absolute(parts[i]) && !EndsWithSlash(parts[i]) {
      assert parts[i] != "" ==> parts[i][0] in parts[i] && parts[i][|parts[i]| - 1] in parts[i];
    }
  }

  /** What is above an entry, and the name of a top-level directory entry. */
  lemma PrefixIsDirectory(s: string, n: nat)
    requires 1 <= n <= |PartsOf(s)|
    ensures Directory(PartsOf(s)[..n])
  {
    var p := PartsOf(s)[..n];
    JoinSplit(NormPath(s));
    SlashFreeNames(p);
    if n == 1 {
      AbsoluteHasTwoParts(p[0]);
    } else {
      PrefixStays(s, n);
    }
  }

  lemma TopIsDirectory(s: string)
    requires |PartsOf(s)| == 1
    ensures Directory([WithoutSlashes(s)])
  {
    AbsoluteHasTwoParts(s);
    SlashesDoNotMatter(s);
  }

  lemma {:induction false} SlashesDoNotMatter(s: string)
    requires !Absolute(s)
    ensures PartsOf(WithoutSlashes(s)) == PartsOf(s) && !Absolute(WithoutSlashes(s))
  {
    hide PartsOf;
    if EndsWithSlash(s) {
      var t := s[..|s| - 1];
      assert s[0] == t[0];
      SlashesDoNotMatter(t);
      assert s == t + "/";
      OneSlashLess(t);
    }
  }

  lemma OneSlashLess(s: string)
    requires !Absolute(s) && !Absolute(s + "/")
    ensures PartsOf(s + "/") == PartsOf(s)
  {
    SplitWithSlash(s);
    NormPathOf(s);
    NormPathOf(s + "/");
    assert (Split(s) + [""])[..|Split(s)|] == Split(s);
    assert Collapsed(Split(s) + [""], false) == Collapsed(Split(s), false);
    hide Split, Collapsed, Join, PartsOf;
  }

  lemma SplitWithSlash(s: string)
    ensures Split(s + "/") == Split(s) + [""]
  {
    assert LastPart(s + "/") == |s| + 1;
    AroundSeparator(s, "");
    assert s + "/" + "" == s + "/";
  }

  /** Without leading separators the parts decide. */
  lemma NormPathOf(s: string)
    requires !Absolute(s)
    ensures PartsOf(s) == Split(if Join(Collapsed(Split(s), false)) == "" then "." else Join(Collapsed(Split(s), false)))
  {
    hide Split, Collapsed, Join;
    assert Slashes(0) == "";
    assert "" + Join(Collapsed(Split(s), false)) == Join(Collapsed(Split(s), false));
  }

  /** A directory found by its name: the parts of the name, or the name in one piece. */
  lemma DirectoryIsSplit(p: seq<string>)
    requires Directory(p)
    ensures p == Split(Join(p)) || p == [Join(p)]
  {
    if PartsOf(Join(p)) == p {
      JoinSplit(NormPath(Join(p)));
      SplitJoin(p);
    }
  }

  // ----- Spelling -----

  predicate NoneEmpty(p: seq<string>) {
    forall i :: 0 <= i < |p| ==> p[i] != ""
  }

  /** The export path of a directory is its joined name and a separator, unless a name is empty: then it
      is shorter, and it never begins with a separator. */
  lemma {:induction false} SpelledDirectory(p: seq<string>)
    requires p != [] && forall i :: 0 <= i < |p| ==> !Absolute(p[i]) && !EndsWithSlash(p[i])
    ensures NoneEmpty(p) ==> Spell(p) == Join(p) + "/"
    ensures !NoneEmpty(p) ==> |Spell(p)| <= |Join(p)|
    ensures !Absolute(Spell(p))
  {
    var front, last := p[..|p| - 1], p[|p| - 1];
    assert p == front + [last];
    if front == [] {
      assert Spell(front) == "" && "" + Separated(last) == Separated(last);
    } else {
      SpelledDirectory(front);
    }
  }
}
