/** The role and group routes as they run, on the authorization and group collections. */
module AccessControl {
  import opened Types
  import opened Multisets
  import opened State
  import opened Roles
  import opened RoleSteps

  class Registry {
    var working: set<Id>
    var frozen: set<Id>
    var users: map<string, bool>
    var groups: Groups
    var auths: Auths
    var files: map<Id, Id>
    var fileIndex: map<Id, multiset<string>>
    var next: Id

    ghost function Contents(): Access
      reads this
    {
      Access(working, frozen, users, groups, auths, files, fileIndex, next)
    }

    constructor (working: set<Id>, frozen: set<Id>, users: map<string, bool>, groups: Groups)
      ensures Contents() == Access(working, frozen, users, groups, map[], map[], map[], 0)
    {
      this.working, this.frozen, this.users, this.groups := working, frozen, users, groups;
      auths, files, fileIndex, next := map[], map[], map[], 0;
    }

    // ----- The index -----

    /** `index_file`: the users of every record of the file's dataset, one list after the other. */
    method IndexFile(f: Id)
      requires f in files
      modifies this`fileIndex
      ensures fileIndex == old(fileIndex)[f := AllUsers(auths, files[f])]
    {
      var authorized := Authorized(auths, files[f]);
      fileIndex := fileIndex[f := multiset(authorized)];
    }

    static method Authorized(auths: Auths, d: Id) returns (authorized: seq<string>)
      ensures multiset(authorized) == AllUsers(auths, d)
    {
      authorized := [];
      var found := RecordsOf(auths, d);
      var rest := found;
      while rest != {}
        invariant rest <= found
        invariant multiset(authorized) + Sum(UsersOf(auths), rest) == Sum(UsersOf(auths), found)
        decreases |rest|
      {
        var a :| a in rest;
        SumTakes(UsersOf(auths), rest, a);
        MultisetsJoin(authorized, auths[a].userIds, Sum(UsersOf(auths), rest - {a}));
        authorized := authorized + auths[a].userIds;
        rest := rest - {a};
      }
    }

    method IndexDatasetFiles(d: Id)
      modifies this`fileIndex
      ensures Contents() == Reindexed(old(Contents()), {d})
    {
      ghost var index := fileIndex;
      ghost var done: set<Id> := {};
      var found := set f | f in files && files[f] == d;
      var rest := found;
      while rest != {}
        invariant rest <= found && done == found - rest && fileIndex == Refreshed(index, auths, d, done)
        decreases |rest|
      {
        var f :| f in rest;
        assert f in files && files[f] == d;
        IndexFile(f);
        RefreshedOneMore(index, auths, d, done, f);
        done := done + {f};
        rest := rest - {f};
      }
      AllRefreshed(index, auths, files, d, done);
    }

    method PutFile(f: Id, d: Id)
      modifies this`files, this`fileIndex
      ensures Contents() == Roles.PutFile(old(Contents()), f, d)
    {
      files := files[f := d];
      IndexFile(f);
    }

    // ----- Roles on a dataset -----

    method RemoveDatasetGroupRole(d: Id, g: Id) returns (r: Outcome<Option<Id>>, pick: Option<Id>)
      modifies this`auths, this`fileIndex
      ensures Answers(pick, GrantedTo(old(auths), d, g))
      ensures (Contents(), r) == RemoveGroupRole(old(Contents()), d, g, pick)
    {
      pick := None;
      if a: Id :| a in auths && Grants(auths, a, d, g) {
        pick := Some(a);
      }
      if !(d in working || d in frozen) || g !in groups {
        return Err(404), pick;
      }
      if pick.None? {
        return Ok(None), pick;
      }
      var auth := auths[pick.value];
      auth := auth.(groupIds := RemoveFirst(auth.groupIds, g));
      var userIds := StripMembers(auth.userIds, groups[g]);
      auth := auth.(userIds := userIds);
      auths := auths[pick.value := auth];
      IndexDatasetFiles(d);
      return Ok(pick), pick;
    }

    /** Takes one occurrence of every member's email out of the list, where there still is one. */
    static method StripMembers(userIds: seq<string>, members: seq<Member>) returns (r: seq<string>)
      ensures r == RemoveEach(userIds, Emails(members))
    {
      r := userIds;
      for i := 0 to |members|
        invariant RemoveEach(userIds, Emails(members)) == RemoveEach(r, Emails(members[i..]))
      {
        var email := members[i].email;
        assert members[i..][0] == members[i] && members[i..][1..] == members[i + 1..];
        RemoveFirstTakesOne(r, email);
        if email in r {
          r := RemoveFirst(r, email);
        }
      }
    }

    method SetDatasetGroupRole(d: Id, g: Id, role: Role)
      returns (r: Outcome<Option<Id>>, pick: Option<Id>, into: Option<Id>)
      modifies this`auths, this`fileIndex, this`next
      ensures Answers(pick, GrantedTo(old(auths), d, g))
      ensures Answers(into, WithRole(RemoveGroupRole(old(Contents()), d, g, pick).0.auths, d, role))
      ensures (Contents(), r) == SetGroupRole(old(Contents()), d, g, role, pick, into)
    {
      var removed;
      removed, pick := RemoveDatasetGroupRole(d, g);
      into := FindWithRole(d, role);
      if removed.Err? {
        return Err(404), pick, into;
      }
      if into.Some? {
        JoinRecord(into.value, d, g);
        return Ok(into), pick, into;
      }
      r := NewRecords(d, g, role);
    }

    /** The group joins an existing record, its read-only members get a viewer record. */
    method JoinRecord(a: Id, d: Id, g: Id)
      requires g in groups && a in auths && auths[a].dataset == d
      modifies this`auths, this`fileIndex, this`next
      ensures Contents() == GrantGroup(old(Contents()), d, g, old(auths[a].role), Some(a)).0
    {
      if g in auths[a].groupIds {
        return;
      }
      var readonly, writers := SplitMembers(groups[g]);
      AppendGroup(a, g, writers);
      EmptyEmails(Readers(groups[g]));
      if readonly != [] {
        ghost var s := Contents();
        var _ := AddRecord(Authorization(d, Viewer, readonly, [g]));
        ReindexedAfter(old(Contents()), s, Contents(), d);
      }
    }

    method AppendGroup(a: Id, g: Id, writers: seq<string>)
      requires a in auths
      modifies this`auths, this`fileIndex
      ensures var auth := old(auths[a]);
              var granted := auth.(groupIds := auth.groupIds + [g], userIds := auth.userIds + writers);
              Contents() == Reindexed(old(Contents()).(auths := old(auths)[a := granted]), {auth.dataset})
    {
      var auth := auths[a];
      auth := auth.(groupIds := auth.groupIds + [g]);
      auth := auth.(userIds := auth.userIds + writers);
      auths := auths[a := auth];
      IndexDatasetFiles(auth.dataset);
    }

    /** A new record and the index after it. */
    method AddRecord(auth: Authorization) returns (id: Id)
      modifies this`auths, this`fileIndex, this`next
      ensures id == old(next)
      ensures Contents() == WithRecord(old(Contents()), auth)
    {
      id := next;
      next := next + 1;
      auths := auths[id := auth];
      IndexDatasetFiles(auth.dataset);
    }

    /** No record of the role yet. Without anybody to put into one the route fails on the way out. */
    method NewRecords(d: Id, g: Id, role: Role) returns (r: Outcome<Option<Id>>)
      requires g in groups && WithRole(auths, d, role) == {}
      modifies this`auths, this`fileIndex, this`next
      ensures (Contents(), r) == GrantGroup(old(Contents()), d, g, role, None)
    {
      var readonly, writers := SplitMembers(groups[g]);
      EmptyEmails(Readers(groups[g]));
      EmptyEmails(Writers(groups[g]));
      if readonly != [] {
        var _ := AddRecord(Authorization(d, Viewer, readonly, [g]));
      }
      if writers == [] {
        return Err(500);
      }
      var a := AddRecord(Authorization(d, role, writers, [g]));
      return Ok(Some(a));
    }

    /** `find_one` by dataset and role. */
    method FindWithRole(d: Id, role: Role) returns (a: Option<Id>)
      ensures Answers(a, WithRole(auths, d, role))
    {
      a := None;
      if found: Id :| found in auths && auths[found].dataset == d && auths[found].role == role {
        a := Some(found);
      }
    }

    /** The loop that sorts the members of a group by their read-only flag. */
    static method SplitMembers(members: seq<Member>) returns (readonly: seq<string>, writers: seq<string>)
      ensures readonly == Emails(Readers(members)) && writers == Emails(Writers(members))
    {
      readonly, writers := [], [];
      for i := 0 to |members|
        invariant readonly == Emails(Readers(members[..i])) && writers == Emails(Writers(members[..i]))
      {
        var m := members[i];
        assert members[..i + 1] == members[..i] + [m];
        ReadersOneMore(members[..i], m);
        WritersOneMore(members[..i], m);
        EmailsOneMore(if m.readOnly then Readers(members[..i]) else Writers(members[..i]), m);
        if m.readOnly {
          readonly := readonly + [m.email];
        } else {
          writers := writers + [m.email];
        }
      }
      assert members[..|members|] == members;
    }

    method RemoveDatasetUserRole(d: Id, u: string) returns (r: Outcome<Option<Id>>, pick: Option<Id>)
      modifies this`auths, this`fileIndex
      ensures Answers(pick, Naming(old(auths), d, u))
      ensures (Contents(), r) == RemoveUserRole(old(Contents()), d, u, pick)
    {
      pick := None;
      if a: Id :| a in auths && auths[a].dataset == d && u in auths[a].userIds {
        pick := Some(a);
      }
      if !(d in working || d in frozen) || u !in users {
        return Err(404), pick;
      }
      if pick.None? {
        return Ok(None), pick;
      }
      var auth := auths[pick.value];
      auths := auths[pick.value := auth.(userIds := RemoveFirst(auth.userIds, u))];
      IndexDatasetFiles(d);
      return Ok(pick), pick;
    }

    method SetDatasetUserRole(d: Id, u: string, role: Role)
      returns (r: Outcome<Option<Id>>, pick: Option<Id>, into: Option<Id>)
      modifies this`auths, this`fileIndex, this`next
      ensures Answers(pick, Naming(old(auths), d, u))
      ensures Answers(into, WithRole(RemoveUserRole(old(Contents()), d, u, pick).0.auths, d, role))
      ensures (Contents(), r) == SetUserRole(old(Contents()), d, u, role, pick, into)
    {
      var removed;
      removed, pick := RemoveDatasetUserRole(d, u);
      into := FindWithRole(d, role);
      if removed.Err? {
        return Err(404), pick, into;
      }
      if users[u] && role != Viewer {
        return Err(405), pick, into;
      }
      if into.Some? && u !in auths[into.value].userIds {
        var auth := auths[into.value];
        auth := auth.(userIds := auth.userIds + [u]);
        var occurrences := GroupOccurrences(auth.groupIds, u);
        if Count(auth.userIds, u) == occurrences {
          auth := auth.(userIds := auth.userIds + [u]);
        }
        auths := auths[into.value := auth];
        IndexDatasetFiles(d);
        return Ok(into), pick, into;
      }
      var a := AddRecord(Authorization(d, role, [u], []));
      return Ok(Some(a)), pick, into;
    }

    /** Two nested loops that count the memberships of one user; the query answers every group once. */
    method GroupOccurrences(ids: seq<Id>, u: string) returns (n: nat)
      ensures n == Memberships(groups, ids, u)
    {
      n := 0;
      for i := 0 to |ids|
        invariant n + Memberships(groups, ids[i..], u) == Memberships(groups, ids, u)
      {
        assert ids[i..][0] == ids[i] && ids[i..][1..] == ids[i + 1..];
        if ids[i] in groups && ids[i] !in ids[i + 1..] {
          var members := groups[ids[i]];
          var k := 0;
          for j := 0 to |members|
            invariant k + Count(Emails(members[j..]), u) == Count(Emails(members), u)
          {
            assert members[j..] == [members[j]] + members[j + 1..];
            CountCons(members[j], members[j + 1..], u);
            if members[j].email == u {
              k := k + 1;
            }
          }
          n := n + k;
        }
      }
    }

    // ----- Group members -----

    method AddMember(g: Id, u: string, editor: bool) returns (r: Outcome<Id>)
      modifies this`groups, this`auths, this`fileIndex
      ensures (Contents(), r) == Roles.AddMember(old(Contents()), g, u, editor)
    {
      if u !in users || g !in groups {
        return Err(404);
      }
      var already := IsMember(groups[g], u);
      if already {
        return Ok(g);
      }
      ghost var s := Contents();
      groups := groups[g := groups[g] + [Member(u, users[u], editor)]];
      auths := Pushed(auths, g, u);
      SameAffected(s, Contents(), g);
      IndexGroup(g);
      return Ok(g);
    }

    static method IsMember(members: seq<Member>, u: string) returns (found: bool)
      ensures found <==> u in Emails(members)
    {
      found := false;
      var i := 0;
      while i < |members| && !found
        invariant i <= |members|
        invariant u in Emails(members) <==> found || u in Emails(members[i..])
      {
        assert members[i..][0] == members[i] && members[i..][1..] == members[i + 1..];
        found := members[i].email == u;
        i := i + 1;
      }
      assert members[|members|..] == [];
    }

    method RemoveMember(g: Id, u: string) returns (r: Outcome<Id>)
      modifies this`groups, this`auths, this`fileIndex
      ensures (Contents(), r) == Roles.RemoveMember(old(Contents()), g, u)
    {
      if g !in groups {
        return Err(404);
      }
      var found := FindMember(groups[g], u);
      if found.None? {
        return Ok(g);
      }
      ghost var s := Contents();
      PullUser(g, u);
      groups := groups[g := RemoveFirst(groups[g], found.value)];
      SameAffected(s, Contents(), g);
      IndexGroup(g);
      return Ok(g);
    }

    /** The search does not stop at the first hit. */
    static method FindMember(members: seq<Member>, u: string) returns (found: Option<Member>)
      ensures found == LastWith(members, u)
    {
      found := None;
      for i := 0 to |members|
        invariant found == LastWith(members[..i], u)
      {
        assert members[..i + 1][..i] == members[..i];
        if members[i].email == u {
          found := Some(members[i]);
        }
      }
      assert members[..|members|] == members;
    }

    /** One occurrence out of every record the group is assigned to, where there is one. */
    method PullUser(g: Id, u: string)
      modifies this`auths
      ensures auths == Pulled(old(auths), g, u)
    {
      var found := set a | a in auths && g in auths[a].groupIds;
      forall a | a in found ensures a in Pulled(auths, g, u) && Pulled(auths, g, u)[a] == Taken(auths[a], u) {
        PulledAt(auths, g, u, a);
      }
      MixedAll(auths, g, u);
      PullFrom(found, u, Pulled(auths, g, u));
    }

    method PullFrom(found: set<Id>, u: string, ghost after: Auths)
      requires forall a :: a in found ==> a in auths && a in after && after[a] == Taken(auths[a], u)
      modifies this`auths
      ensures auths == Mixed(old(auths), after, found)
    {
      ghost var before, done := auths, {};
      var rest := found;
      MixedNone(before, after);
      while rest != {}
        invariant done + rest == found && done !! rest && auths == Mixed(before, after, done)
        decreases |rest|
      {
        var a :| a in rest;
        MixedOneMore(before, after, done, a);
        var auth := TakeOne(auths[a], u);
        auths := auths[a := auth];
        done, rest := done + {a}, rest - {a};
      }
      assert done == found;
    }

    static method TakeOne(auth: Authorization, u: string) returns (auth': Authorization)
      ensures auth' == Taken(auth, u)
    {
      RemoveFirstTakesOne(auth.userIds, u);
      auth' := auth;
      if u in auth.userIds {
        auth' := auth.(userIds := RemoveFirst(auth.userIds, u));
      }
    }

    /** The files of every working dataset with a record that mentions the group. */
    method IndexGroup(g: Id)
      modifies this`fileIndex
      ensures Contents() == Reindexed(old(Contents()), Affected(old(Contents()), g))
    {
      ghost var s, done: set<Id> := Contents(), {};
      var found := GivenTo(auths, g);
      var rest := found;
      ReindexedNone(s);
      assert DatasetsOf(s, {}) == {};
      while rest != {}
        invariant rest <= found && done == found - rest
        invariant Contents() == Reindexed(s, DatasetsOf(s, done))
        decreases |rest|
      {
        var a :| a in rest;
        IndexDatasetOf(a, s, done);
        done, rest := done + {a}, rest - {a};
      }
      assert done == found;
      DatasetsOfAll(s, g);
    }

    /** The files of the record's dataset, if that is a working dataset. */
    method IndexDatasetOf(a: Id, ghost s: Access, ghost done: set<Id>)
      requires a in auths && Contents() == Reindexed(s, DatasetsOf(s, done))
      modifies this`fileIndex
      ensures Contents() == Reindexed(s, DatasetsOf(s, done + {a}))
    {
      ReindexedOneMore(s, done, a);
      if auths[a].dataset in working {
        IndexDatasetFiles(auths[a].dataset);
      }
    }

    // ----- Reading roles -----

    /** The per-record part of `get_dataset_roles`: count the memberships, then list who is left. */
    method ListIndividually(a: Id) returns (listed: set<string>)
      requires a in auths
      ensures listed == Individually(Contents(), auths[a])
    {
      var auth := auths[a];
      listed := {};
      var rest := users.Keys;
      while rest != {}
        invariant rest <= users.Keys
        invariant listed == set u | u in Individually(Contents(), auth) && u !in rest
        decreases |rest|
      {
        var u :| u in rest;
        rest := rest - {u};
        if u in auth.userIds {
          var counted := GroupOccurrences(auth.groupIds, u);
          if !(counted > 0 && Count(auth.userIds, u) == counted) {
            listed := listed + {u};
          }
        }
      }
      assert rest == {};
    }

    /** For every record of the dataset its groups, and the users listed individually with its role. */
    method GetDatasetRoles(d: Id) returns (r: Outcome<map<Id, Listed>>)
      ensures !Visible(Contents(), d) ==> r == Err(404)
      ensures Visible(Contents(), d) ==>
                r.Ok? && r.value.Keys == RecordsOf(auths, d) &&
                forall a :: a in r.value ==> r.value[a] == ListedFor(Contents(), auths[a])
    {
      if !(d in working || d in frozen) {
        return Err(404);
      }
      var roles: map<Id, Listed> := map[];
      var found := RecordsOf(auths, d);
      var rest := found;
      while rest != {}
        invariant rest <= found && roles.Keys == found - rest
        invariant forall a :: a in roles ==> roles[a] == ListedFor(Contents(), auths[a])
        decreases |rest|
      {
        var a :| a in rest;
        var users := ListIndividually(a);
        roles := roles[a := Listed(auths[a].role, (set g | g in auths[a].groupIds && g in groups), users)];
        rest := rest - {a};
      }
      return Ok(roles);
    }
  }

  lemma EmptyEmails(members: seq<Member>)
    ensures members == [] <==> Emails(members) == []
  {
  }

  lemma {:induction false} ReadersOneMore(members: seq<Member>, m: Member)
    ensures Readers(members + [m]) == if m.readOnly then Readers(members) + [m] else Readers(members)
  {
    if members == [] {
      assert [m] + [] == [m] && [m][1..] == [];
    } else {
      ReadersOneMore(members[1..], m);
      assert (members + [m])[1..] == members[1..] + [m] && (members + [m])[0] == members[0];
    }
  }

  lemma {:induction false} WritersOneMore(members: seq<Member>, m: Member)
    ensures Writers(members + [m]) == if m.readOnly then Writers(members) else Writers(members) + [m]
  {
    if members == [] {
      assert [m] + [] == [m] && [m][1..] == [];
    } else {
      WritersOneMore(members[1..], m);
      assert (members + [m])[1..] == members[1..] + [m] && (members + [m])[0] == members[0];
    }
  }

  lemma EmailsOneMore(members: seq<Member>, m: Member)
    ensures Emails(members + [m]) == Emails(members) + [m.email]
  {
    EmailsConcat(members, [m]);
    assert Emails([m]) == [m.email];
  }

  lemma MultisetsJoin(a: seq<string>, b: seq<string>, rest: multiset<string>)
    ensures multiset(a) + (multiset(b) + rest) == multiset(a + b) + rest
  {
  }

  /** The index with the entries of the files `fs` of dataset `d` written. */
  ghost function Refreshed(index: map<Id, multiset<string>>, auths: Auths, d: Id, fs: set<Id>)
    : map<Id, multiset<string>>
  {
    index + map f | f in fs :: AllUsers(auths, d)
  }

  lemma RefreshedOneMore(index: map<Id, multiset<string>>, auths: Auths, d: Id, fs: set<Id>, f: Id)
    ensures Refreshed(index, auths, d, fs)[f := AllUsers(auths, d)] == Refreshed(index, auths, d, fs + {f})
  {
  }

  lemma AllRefreshed(index: map<Id, multiset<string>>, auths: Auths, files: map<Id, Id>, d: Id, fs: set<Id>)
    requires fs == set f | f in files && files[f] == d
    ensures Refreshed(index, auths, d, fs) == index + Entries(auths, files, {d})
  {
    assert Entries(auths, files, {d}) == map f | f in fs :: AllUsers(auths, d);
  }

  /** A second write of the same files' entries covers the first. */
  lemma ReindexedAfter(s0: Access, s: Access, s': Access, d: Id)
    requires s.fileIndex == s0.fileIndex + Entries(s.auths, s.files, {d})
    requires s'.files == s.files && s'.fileIndex == s.fileIndex + Entries(s'.auths, s'.files, {d})
    ensures s'.fileIndex == s0.fileIndex + Entries(s'.auths, s'.files, {d})
  {
    assert Entries(s.auths, s.files, {d}).Keys == Entries(s'.auths, s'.files, {d}).Keys;
    MergeTwice(s0.fileIndex, Entries(s.auths, s.files, {d}), Entries(s'.auths, s'.files, {d}));
  }

  lemma MergeTwice<K, V>(m: map<K, V>, a: map<K, V>, b: map<K, V>)
    requires a.Keys <= b.Keys
    ensures m + a + b == m + b
  {
  }

  lemma SameAffected(s: Access, s': Access, g: Id)
    requires s'.working == s.working && s'.auths.Keys == s.auths.Keys
    requires forall a :: a in s.auths ==>
               s'.auths[a].dataset == s.auths[a].dataset && s'.auths[a].groupIds == s.auths[a].groupIds
    ensures Affected(s', g) == Affected(s, g)
  {
    assert forall d :: d in Affected(s, g) <==>
                       exists a :: a in s.auths && g in s.auths[a].groupIds && s.auths[a].dataset in s.working &&
                                   s.auths[a].dataset == d;
  }

  function GivenTo(auths: Auths, g: Id): set<Id> {
    set a | a in auths && g in auths[a].groupIds
  }

  /** The records `done` as they are in `after`, the others as they are in `before`. */
  function Mixed(before: Auths, after: Auths, done: set<Id>): Auths {
    map a | a in before :: if a in done && a in after then after[a] else before[a]
  }

  lemma MixedNone(before: Auths, after: Auths)
    ensures Mixed(before, after, {}) == before
  {
  }

  lemma MixedOneMore(before: Auths, after: Auths, done: set<Id>, a: Id)
    requires a in before && a in after && a !in done
    ensures var part := Mixed(before, after, done);
            part[a] == before[a] && part[a := after[a]] == Mixed(before, after, done + {a})
  {
  }

  lemma PulledAt(auths: Auths, g: Id, u: string, a: Id)
    requires a in GivenTo(auths, g)
    ensures a in Pulled(auths, g, u)
    ensures Pulled(auths, g, u)[a] == Taken(auths[a], u)
  {
  }

  lemma MixedAll(auths: Auths, g: Id, u: string)
    ensures Mixed(auths, Pulled(auths, g, u), GivenTo(auths, g)) == Pulled(auths, g, u)
  {
  }

  /** The working datasets of the records `found`. */
  function DatasetsOf(s: Access, found: set<Id>): set<Id> {
    set a | a in found && a in s.auths && s.auths[a].dataset in s.working :: s.auths[a].dataset
  }

  lemma DatasetsOneMore(s: Access, found: set<Id>, a: Id)
    requires a in s.auths
    ensures DatasetsOf(s, found + {a}) ==
            DatasetsOf(s, found) + if s.auths[a].dataset in s.working then {s.auths[a].dataset} else {}
  {
    forall d ensures d in DatasetsOf(s, found + {a}) <==>
                     d in DatasetsOf(s, found) || (d == s.auths[a].dataset && d in s.working) {
      if d == s.auths[a].dataset && d in s.working {
        assert a in found + {a};
      }
    }
  }

  lemma ReindexedOneMore(s: Access, done: set<Id>, a: Id)
    requires a in s.auths
    ensures Reindexed(s, DatasetsOf(s, done + {a})) ==
            if s.auths[a].dataset in s.working then Reindexed(Reindexed(s, DatasetsOf(s, done)), {s.auths[a].dataset})
            else Reindexed(s, DatasetsOf(s, done))
  {
    var ds := DatasetsOf(s, done);
    DatasetsOneMore(s, done, a);
    if s.auths[a].dataset in s.working {
      ReindexedTwice(s, ds, s.auths[a].dataset);
    } else {
      assert ds + {} == ds;
    }
  }

  lemma DatasetsOfAll(s: Access, g: Id)
    ensures DatasetsOf(s, GivenTo(s.auths, g)) == Affected(s, g)
  {
    forall d ensures d in DatasetsOf(s, GivenTo(s.auths, g)) <==> d in Affected(s, g) {
      if d in Affected(s, g) {
        var a :| a in s.auths && g in s.auths[a].groupIds && s.auths[a].dataset in s.working && s.auths[a].dataset == d;
        assert a in GivenTo(s.auths, g);
      }
    }
  }

  lemma ReindexedNone(s: Access)
    ensures Reindexed(s, {}) == s
  {
    assert Entries(s.auths, s.files, {}) == map[];
    assert s.fileIndex + map[] == s.fileIndex;
  }

  lemma ReindexedTwice(s: Access, ds: set<Id>, d: Id)
    ensures Reindexed(Reindexed(s, ds), {d}) == Reindexed(s, ds + {d})
  {
    EntriesJoin(s.auths, s.files, ds, d);
    MergeAssociates(s.fileIndex, Entries(s.auths, s.files, ds), Entries(s.auths, s.files, {d}));
  }

  lemma EntriesJoin(auths: Auths, files: map<Id, Id>, ds: set<Id>, d: Id)
    ensures Entries(auths, files, ds) + Entries(auths, files, {d}) == Entries(auths, files, ds + {d})
  {
  }

  lemma MergeAssociates<K, V>(m: map<K, V>, a: map<K, V>, b: map<K, V>)
    ensures m + a + b == m + (a + b)
  {
  }
}
