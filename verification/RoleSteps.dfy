/** The role routes against the bookkeeping: what each keeps, and exactly when it does not. */
module RoleSteps {
  import opened Types
  import opened Multisets
  import opened State
  import opened Roles

  // ----- Sums over group lists -----

  lemma {:induction false} EmailsConcat(a: seq<Member>, b: seq<Member>)
    ensures Emails(a + b) == Emails(a) + Emails(b)
  {
    if a == [] {
      assert a + b == b;
    } else {
      EmailsConcat(a[1..], b);
      assert (a + b)[1..] == a[1..] + b;
    }
  }

  lemma {:induction false} MembershipsAppend(groups: Groups, ids: seq<Id>, g: Id, u: string)
    requires g in groups && g !in ids
    ensures Memberships(groups, ids + [g], u) == Memberships(groups, ids, u) + Count(Emails(groups[g]), u)
  {
    hide Count, Emails;
    if ids == [] {
      assert [g][1..] == [];
    } else {
      var rest := ids[1..];
      MembershipsAppend(groups, rest, g, u);
      assert (ids + [g])[0] == ids[0] != g && (ids + [g])[1..] == rest + [g];
      assert ids[0] in rest + [g] <==> ids[0] in rest;
    }
  }

  lemma {:induction false} MembershipsRemove(groups: Groups, ids: seq<Id>, g: Id, u: string)
    requires g in groups && g in ids && NoDuplicates(ids)
    ensures Memberships(groups, ids, u) == Memberships(groups, RemoveFirst(ids, g), u) + Count(Emails(groups[g]), u)
  {
    if ids[0] != g {
      MembershipsRemove(groups, ids[1..], g, u);
      assert RemoveFirst(ids, g)[1..] == RemoveFirst(ids[1..], g);
      RemoveFirstKeepsDistinct(ids[1..], g);
      assert ids[0] !in ids[1..];
    }
  }

  lemma {:induction false} MembershipsElsewhere(groups: Groups, members: seq<Member>, ids: seq<Id>, g: Id, u: string)
    requires g !in ids
    ensures Memberships(groups[g := members], ids, u) == Memberships(groups, ids, u)
  {
    if ids != [] {
      MembershipsElsewhere(groups, members, ids[1..], g, u);
    }
  }

  /** Changing the members of one assigned group changes the count by the difference. */
  lemma {:induction false} MembershipsChange(groups: Groups, members: seq<Member>, ids: seq<Id>, g: Id, u: string)
    requires g in groups && g in ids && NoDuplicates(ids)
    ensures Memberships(groups[g := members], ids, u) + Count(Emails(groups[g]), u) ==
            Memberships(groups, ids, u) + Count(Emails(members), u)
  {
    if ids[0] == g {
      assert g !in ids[1..];
      MembershipsElsewhere(groups, members, ids[1..], g, u);
    } else {
      MembershipsChange(groups, members, ids[1..], g, u);
    }
  }

  lemma {:induction false} MembershipsOfOne(groups: Groups, ids: seq<Id>, g: Id, u: string)
    requires g in groups && g in ids
    ensures Count(Emails(groups[g]), u) <= Memberships(groups, ids, u)
  {
    if ids[0] != g || g in ids[1..] {
      MembershipsOfOne(groups, ids[1..], g, u);
    }
  }

  // ----- Group roles -----

  /** Records of `s` are still there with the same direct grants. */
  ghost predicate DirectKept(s: Access, s': Access) {
    forall a :: a in s.auths ==> a in s'.auths && SameDirect(s.groups, s.auths[a], s'.groups, s'.auths[a])
  }

  ghost predicate SameDirect(groups: Groups, auth: Authorization, groups': Groups, auth': Authorization) {
    forall u :: Direct(groups', auth', u) == Direct(groups, auth, u)
  }

  function Stripped(groups: Groups, auth: Authorization, g: Id): Authorization
    requires g in groups
  {
    auth.(groupIds := RemoveFirst(auth.groupIds, g), userIds := RemoveEach(auth.userIds, Emails(groups[g])))
  }

  lemma StrippedKeepsDirect(groups: Groups, auth: Authorization, g: Id)
    requires GroupsListed(groups, auth) && Counted(groups, auth) && g in auth.groupIds
    ensures GroupsListed(groups, Stripped(groups, auth, g)) && g !in Stripped(groups, auth, g).groupIds
    ensures SameDirect(groups, auth, groups, Stripped(groups, auth, g))
  {
    RemoveFirstKeepsDistinct(auth.groupIds, g);
    forall u ensures Direct(groups, Stripped(groups, auth, g), u) == Direct(groups, auth, u) {
      MembershipsRemove(groups, auth.groupIds, g, u);
      MembershipsOfOne(groups, auth.groupIds, g, u);
      assert Direct(groups, auth, u) >= 0;
      CountRemoveEach(auth.userIds, Emails(groups[g]), u);
    }
  }

  /** Taking a group's role away removes its memberships and nothing else. */
  lemma RemoveGroupRoleKeeps(s: Access, d: Id, g: Id, pick: Option<Id>)
    requires Books(s) && Answers(pick, GrantedTo(s.auths, d, g))
    ensures var s' := RemoveGroupRole(s, d, g, pick).0;
            && Books(s') && DirectKept(s, s')
            && (Visible(s, d) && g in s.groups ==> GrantedTo(s'.auths, d, g) == {})
  {
    if Visible(s, d) && g in s.groups && pick.Some? {
      var a := pick.value;
      var s' := RemoveGroupRole(s, d, g, pick).0;
      StrippedKeepsDirect(s.groups, s.auths[a], g);
      assert s'.auths == s.auths[a := Stripped(s.groups, s.auths[a], g)];
      SameDirectSameCounted(s.groups, s.auths[a], s.groups, s'.auths[a]);
      RemoveFirstKeepsDistinct(s.auths[a].groupIds, g);
      forall b, e, h | Grants(s'.auths, b, e, h) ensures Grants(s.auths, b, e, h) {
      }
      forall b ensures !Grants(s'.auths, b, d, g) {
        assert Grants(s'.auths, b, d, g) ==> Grants(s.auths, b, d, g) && Grants(s.auths, a, d, g);
      }
    }
  }

  lemma SameDirectSameCounted(groups: Groups, auth: Authorization, groups': Groups, auth': Authorization)
    requires Counted(groups, auth) && SameDirect(groups, auth, groups', auth')
    ensures Counted(groups', auth')
  {
    forall u ensures Direct(groups', auth', u) >= 0 {
      assert Direct(groups, auth, u) >= 0;
    }
  }

  lemma RemoveGroupRoleIndexes(s: Access, d: Id, g: Id, pick: Option<Id>)
    requires IndexAgrees(s) && Answers(pick, GrantedTo(s.auths, d, g))
    ensures IndexAgrees(RemoveGroupRole(s, d, g, pick).0)
  {
    if Visible(s, d) && g in s.groups && pick.Some? {
      ReindexedAgrees(s, s.(auths := RemoveGroupRole(s, d, g, pick).0.auths), {d});
    }
  }

  lemma CountCons(m: Member, rest: seq<Member>, u: string)
    ensures Count(Emails([m] + rest), u) == (if u == m.email then 1 else 0) + Count(Emails(rest), u)
  {
    assert ([m] + rest)[1..] == rest;
    CountConcat([m.email], Emails(rest), u);
    CountOne(m.email, u);
  }

  lemma ReadersCons(m: Member, rest: seq<Member>)
    ensures Readers([m] + rest) == if m.readOnly then [m] + Readers(rest) else Readers(rest)
    ensures Writers([m] + rest) == if m.readOnly then Writers(rest) else [m] + Writers(rest)
  {
    assert ([m] + rest)[1..] == rest;
  }

  lemma {:induction false} ReadersAndWriters(members: seq<Member>, u: string)
    ensures Count(Emails(members), u) == Count(Emails(Readers(members)), u) + Count(Emails(Writers(members)), u)
  {
    if members != [] {
      var m, rest := members[0], members[1..];
      assert members == [m] + rest;
      ReadersAndWriters(rest, u);
      ReadersCons(m, rest);
      CountCons(m, rest, u);
      CountCons(m, if m.readOnly then Readers(rest) else Writers(rest), u);
    }
  }

  /** The group is granted as a whole: no read-only member, or nobody else and no record to join. */
  predicate Uniform(s: Access, g: Id, into: Option<Id>)
    requires g in s.groups
  {
    Readers(s.groups[g]) == [] || (into.None? && Writers(s.groups[g]) == [])
  }

  lemma OneKindOnly(members: seq<Member>, u: string)
    ensures Readers(members) == [] ==> Count(Emails(Writers(members)), u) == Count(Emails(members), u)
    ensures Writers(members) == [] ==> Count(Emails(Readers(members)), u) == Count(Emails(members), u)
  {
    ReadersAndWriters(members, u);
  }

  lemma NobodyElseGranted(auths: Auths, auths': Auths, a: Id, d: Id, g: Id)
    requires OneRolePerGroup(auths) && GrantedTo(auths, d, g) == {}
    requires forall b, e, h :: Grants(auths', b, e, h) ==> Grants(auths, b, e, h) || (b == a && e == d && h == g)
    ensures OneRolePerGroup(auths')
  {
    forall b, c, e, h | Grants(auths', b, e, h) && Grants(auths', c, e, h) ensures b == c {
      assert e == d && h == g ==> b !in GrantedTo(auths, d, g) && c !in GrantedTo(auths, d, g);
    }
  }

  ghost predicate HoldsNone(groups: Groups, auth: Authorization) {
    forall u :: Direct(groups, auth, u) == 0
  }

  /** Records that `s` did not have hold no direct grant. */
  ghost predicate NewHoldNone(s: Access, s': Access) {
    forall a :: a in s'.auths && a !in s.auths ==> HoldsNone(s'.groups, s'.auths[a])
  }

  /** A record of its own for the group holds no direct grant. */
  lemma OwnRecord(groups: Groups, d: Id, g: Id, role: Role, users: seq<string>)
    requires g in groups && forall u :: Count(users, u) == Count(Emails(groups[g]), u)
    ensures var auth := Authorization(d, role, users, [g]);
            GroupsListed(groups, auth) && forall u :: Direct(groups, auth, u) == 0
  {
    var auth := Authorization(d, role, users, [g]);
    forall u ensures Direct(groups, auth, u) == 0 {
      assert [g] == [] + [g];
      MembershipsAppend(groups, [], g, u);
    }
  }

  lemma NewGroupRecord(s: Access, d: Id, g: Id, role: Role, users: seq<string>)
    requires Books(s) && g in s.groups && GrantedTo(s.auths, d, g) == {} && s.next !in s.auths
    requires forall u :: Count(users, u) == Count(Emails(s.groups[g]), u)
    ensures Books(s.(auths := s.auths[s.next := Authorization(d, role, users, [g])]))
    ensures HoldsNone(s.groups, Authorization(d, role, users, [g]))
  {
    OwnRecord(s.groups, d, g, role, users);
    NobodyElseGranted(s.auths, s.auths[s.next := Authorization(d, role, users, [g])], s.next, d, g);
  }

  lemma JoinedKeepsDirect(groups: Groups, auth: Authorization, g: Id)
    requires GroupsListed(groups, auth) && g in groups && g !in auth.groupIds && Readers(groups[g]) == []
    ensures GroupsListed(groups, Joined(groups, auth, g))
    ensures SameDirect(groups, auth, groups, Joined(groups, auth, g))
  {
    forall u ensures Direct(groups, Joined(groups, auth, g), u) == Direct(groups, auth, u) {
      OneKindOnly(groups[g], u);
      MembershipsAppend(groups, auth.groupIds, g, u);
      CountConcat(auth.userIds, Emails(Writers(groups[g])), u);
    }
  }

  /** An existing record joined by a group without read-only members. */
  lemma JoinGroup(s: Access, d: Id, g: Id, a: Id)
    requires Books(s) && g in s.groups && GrantedTo(s.auths, d, g) == {}
    requires a in s.auths && s.auths[a].dataset == d && Readers(s.groups[g]) == []
    ensures g !in s.auths[a].groupIds
    ensures Books(s.(auths := s.auths[a := Joined(s.groups, s.auths[a], g)]))
    ensures SameDirect(s.groups, s.auths[a], s.groups, Joined(s.groups, s.auths[a], g))
  {
    assert g in s.auths[a].groupIds ==> a in GrantedTo(s.auths, d, g);
    JoinedKeepsDirect(s.groups, s.auths[a], g);
    SameDirectSameCounted(s.groups, s.auths[a], s.groups, Joined(s.groups, s.auths[a], g));
    NobodyElseGranted(s.auths, s.auths[a := Joined(s.groups, s.auths[a], g)], a, d, g);
  }

  /** Two records for one group on one dataset: the bookkeeping is broken. */
  lemma TwoRecordsBreak(s: Access, a: Id, b: Id, d: Id, g: Id)
    requires a != b && Grants(s.auths, a, d, g) && Grants(s.auths, b, d, g)
    ensures !Books(s)
  {
  }

  /** Granting a role to a group that has none on the dataset keeps the bookkeeping exactly when the
      group is granted as a whole; read-only members otherwise end up in a second record. */
  lemma GrantGroupKeepsIff(s: Access, d: Id, g: Id, role: Role, into: Option<Id>)
    requires Books(s) && g in s.groups && GrantedTo(s.auths, d, g) == {} && (forall a :: a in s.auths ==> a < s.next)
    requires Answers(into, WithRole(s.auths, d, role))
    ensures Books(GrantGroup(s, d, g, role, into).0) <==> Uniform(s, g, into)
    ensures Uniform(s, g, into) ==> DirectKept(s, GrantGroup(s, d, g, role, into).0)
    ensures Uniform(s, g, into) ==> NewHoldNone(s, GrantGroup(s, d, g, role, into).0)
  {
    var s' := GrantGroup(s, d, g, role, into).0;
    var members := s.groups[g];
    if Uniform(s, g, into) {
      GrantWholeGroup(s, d, g, role, into);
    } else if into.Some? {
      assert into.value !in GrantedTo(s.auths, d, g);
      TwoRecordsBreak(s', into.value, s.next, d, g);
    } else {
      TwoRecordsBreak(s', s.next, s.next + 1, d, g);
    }
  }

  lemma GrantWholeGroup(s: Access, d: Id, g: Id, role: Role, into: Option<Id>)
    requires Books(s) && g in s.groups && GrantedTo(s.auths, d, g) == {} && (forall a :: a in s.auths ==> a < s.next)
    requires Answers(into, WithRole(s.auths, d, role)) && Uniform(s, g, into)
    ensures DirectUntouched(s, GrantGroup(s, d, g, role, into).0)
  {
    hide Books, DirectUntouched;
    if into.Some? {
      JoinWholeGroup(s, d, g, role, into.value);
    } else {
      NewWholeGroup(s, d, g, role);
    }
  }

  /** The bookkeeping stands, nobody's direct grants changed and new records hold none. */
  ghost predicate DirectUntouched(s: Access, s': Access) {
    Books(s') && DirectKept(s, s') && NewHoldNone(s, s')
  }

  lemma SameRecordsSameBooks(s: Access, t: Access, s': Access)
    requires DirectUntouched(s, t) && s'.groups == t.groups && s'.auths == t.auths
    ensures DirectUntouched(s, s')
  {
  }

  lemma JoinWholeGroup(s: Access, d: Id, g: Id, role: Role, a: Id)
    requires Books(s) && g in s.groups && GrantedTo(s.auths, d, g) == {}
    requires a in WithRole(s.auths, d, role) && Readers(s.groups[g]) == []
    ensures DirectUntouched(s, GrantGroup(s, d, g, role, Some(a)).0)
  {
    JoinGroup(s, d, g, a);
    SameRecordsSameBooks(s, s.(auths := s.auths[a := Joined(s.groups, s.auths[a], g)]),
                         GrantGroup(s, d, g, role, Some(a)).0);
  }

  lemma NewWholeGroup(s: Access, d: Id, g: Id, role: Role)
    requires Books(s) && g in s.groups && GrantedTo(s.auths, d, g) == {} && (forall a :: a in s.auths ==> a < s.next)
    requires WithRole(s.auths, d, role) == {} && Uniform(s, g, None)
    ensures DirectUntouched(s, GrantGroup(s, d, g, role, None).0)
  {
    NewGroupCases(s, d, g, role);
    hide Books, DirectUntouched, GrantGroup, WithRecord;
    if Writers(s.groups[g]) != [] {
      WholeGroupRecord(s, d, g, role, Writers(s.groups[g]));
    } else if Readers(s.groups[g]) != [] {
      WholeGroupRecord(s, d, g, Viewer, Readers(s.groups[g]));
    } else {
      NothingTouched(s, s);
    }
  }

  /** The grant without a record to join, for a group of writers or of readers only. */
  lemma NewGroupCases(s: Access, d: Id, g: Id, role: Role)
    requires g in s.groups && WithRole(s.auths, d, role) == {} && Uniform(s, g, None)
    ensures GrantGroup(s, d, g, role, None).0 ==
            if Writers(s.groups[g]) != [] then WithRecord(s, Authorization(d, role, Emails(Writers(s.groups[g])), [g]))
            else if Readers(s.groups[g]) != [] then WithRecord(s, Authorization(d, Viewer, Emails(Readers(s.groups[g])), [g]))
            else s
  {
    hide WithRecord;
  }

  lemma NothingTouched(s: Access, s': Access)
    requires Books(s) && s'.groups == s.groups && s'.auths == s.auths
    ensures DirectUntouched(s, s')
  {
  }

  lemma WholeGroupRecord(s: Access, d: Id, g: Id, role: Role, all: seq<Member>)
    requires Books(s) && g in s.groups && GrantedTo(s.auths, d, g) == {} && s.next !in s.auths
    requires (all == Writers(s.groups[g]) && Readers(s.groups[g]) == []) ||
             (all == Readers(s.groups[g]) && Writers(s.groups[g]) == [])
    ensures DirectUntouched(s, WithRecord(s, Authorization(d, role, Emails(all), [g])))
  {
    var s' := WithRecord(s, Authorization(d, role, Emails(all), [g]));
    forall u ensures Count(Emails(all), u) == Count(Emails(s.groups[g]), u) {
      OneKindOnly(s.groups[g], u);
    }
    NewGroupRecord(s, d, g, role, Emails(all));
    SameRecordsSameBooks(s, s.(auths := s'.auths), s');
  }

  /** The grant ends with an exception exactly when there is no record of the role to join and nobody to put
      into a new one; the viewer record of the read-only members is inserted before that. */
  lemma GrantFailsIff(s: Access, d: Id, g: Id, role: Role, into: Option<Id>)
    requires g in s.groups && Answers(into, WithRole(s.auths, d, role)) && s.next !in s.auths
    ensures var (s', r) := GrantGroup(s, d, g, role, into);
            && (r.Err? <==> into.None? && forall m :: m in s.groups[g] ==> m.readOnly)
            && (r.Err? ==> r == Err(500) && (s'.auths == s.auths <==> s.groups[g] == []))
            && (r.Err? && s.groups[g] != [] ==>
                  s'.auths == s.auths[s.next := Authorization(d, Viewer, Emails(s.groups[g]), [g])])
  {
    WritersAre(s.groups[g]);
    EmailsOfSome(Writers(s.groups[g]));
    if into.None? && Writers(s.groups[g]) == [] && s.groups[g] != [] {
      assert s.next in s.auths[s.next := ViewerRecord(s.groups, d, g)];
      hide Entries;
    }
  }

  lemma EmailsOfSome(members: seq<Member>)
    ensures members != [] <==> Emails(members) != []
  {
  }

  lemma {:induction false} WritersAre(members: seq<Member>)
    ensures Writers(members) == [] <==> forall m :: m in members ==> m.readOnly
    ensures Writers(members) == [] ==> Readers(members) == members
  {
    if members != [] {
      WritersAre(members[1..]);
      assert members == [members[0]] + members[1..];
    }
  }

  lemma WithRecordIndexes(s: Access, auth: Authorization)
    requires IndexAgrees(s) && forall a :: a in s.auths ==> a < s.next
    ensures IndexAgrees(WithRecord(s, auth)) && forall a :: a in WithRecord(s, auth).auths ==> a <= s.next
  {
    ReindexedAgrees(s, s.(auths := s.auths[s.next := auth], next := s.next + 1), {auth.dataset});
  }

  lemma GrantGroupIndexes(s: Access, d: Id, g: Id, role: Role, into: Option<Id>)
    requires g in s.groups && IndexAgrees(s) && (forall a :: a in s.auths ==> a < s.next)
    requires Answers(into, WithRole(s.auths, d, role))
    ensures IndexAgrees(GrantGroup(s, d, g, role, into).0)
  {
    if into.Some? {
      JoiningIndexes(s, d, g, into.value);
    } else {
      if Readers(s.groups[g]) != [] {
        WithRecordIndexes(s, ViewerRecord(s.groups, d, g));
      }
      WithRecordIndexes(ViewerAdded(s, d, g), Authorization(d, role, Emails(Writers(s.groups[g])), [g]));
    }
  }

  lemma JoiningIndexes(s: Access, d: Id, g: Id, a: Id)
    requires g in s.groups && IndexAgrees(s) && (forall a :: a in s.auths ==> a < s.next)
    requires a in s.auths && s.auths[a].dataset == d
    ensures IndexAgrees(GrantJoining(s, d, g, a))
  {
    var auths := s.auths[a := Joined(s.groups, s.auths[a], g)];
    hide IndexAgrees, Reindexed;
    if Readers(s.groups[g]) == [] {
      ReindexedAgrees(s, s.(auths := auths), {d});
    } else {
      ReindexedAgrees(s, s.(auths := auths[s.next := ViewerRecord(s.groups, d, g)], next := s.next + 1), {d});
    }
  }

  // ----- Members -----

  /** A new member is counted in every record of the group, once, and nobody's direct grants change. */
  lemma AddMemberKeeps(s: Access, g: Id, u: string, editor: bool)
    requires Books(s)
    ensures Books(AddMember(s, g, u, editor).0) && DirectKept(s, AddMember(s, g, u, editor).0)
  {
    if u in s.users && g in s.groups && u !in Emails(s.groups[g]) {
      var s' := AddMember(s, g, u, editor).0;
      var member := Member(u, s.users[u], editor);
      EmailsConcat(s.groups[g], [member]);
      assert Emails([member]) == [u];
      forall a | a in s.auths
        ensures GroupsListed(s'.groups, s'.auths[a]) && Counted(s'.groups, s'.auths[a])
        ensures SameDirect(s.groups, s.auths[a], s'.groups, s'.auths[a])
      {
        MembershipCounted(s.groups, s.auths[a], g, s.groups[g] + [member], u);
      }
      SameGrants(s.auths, s'.auths);
    }
  }

  lemma SameGrants(auths: Auths, auths': Auths)
    requires OneRolePerGroup(auths)
    requires auths'.Keys == auths.Keys
    requires forall a :: a in auths ==> auths'[a].dataset == auths[a].dataset && auths'[a].groupIds == auths[a].groupIds
    ensures OneRolePerGroup(auths')
  {
    forall a, b, d, g | Grants(auths', a, d, g) && Grants(auths', b, d, g) ensures a == b {
      assert Grants(auths, a, d, g) && Grants(auths, b, d, g);
    }
  }

  lemma MembershipCounted(groups: Groups, auth: Authorization, g: Id, members: seq<Member>, u: string)
    requires GroupsListed(groups, auth) && Counted(groups, auth)
    requires g in groups && Emails(members) == Emails(groups[g]) + [u]
    ensures var auth' := if g in auth.groupIds then auth.(userIds := auth.userIds + [u]) else auth;
            && GroupsListed(groups[g := members], auth') && Counted(groups[g := members], auth')
            && SameDirect(groups, auth, groups[g := members], auth')
  {
    var auth' := if g in auth.groupIds then auth.(userIds := auth.userIds + [u]) else auth;
    forall v ensures Direct(groups[g := members], auth', v) == Direct(groups, auth, v) {
      if g in auth.groupIds {
        MembershipsChange(groups, members, auth.groupIds, g, v);
        CountConcat(auth.userIds, [u], v);
        CountConcat(Emails(groups[g]), [u], v);
      } else {
        MembershipsElsewhere(groups, members, auth.groupIds, g, v);
      }
    }
    SameDirectSameCounted(groups, auth, groups[g := members], auth');
  }

  lemma AddMemberIndexes(s: Access, g: Id, u: string, editor: bool)
    requires IndexAgrees(s) && forall f :: f in s.files ==> s.files[f] in s.working
    ensures IndexAgrees(AddMember(s, g, u, editor).0)
  {
    if u in s.users && g in s.groups && u !in Emails(s.groups[g]) {
      MembersIndexed(s, AddMember(s, g, u, editor).0, g);
    }
  }

  /** Files of every dataset whose records changed were indexed anew. */
  lemma MembersIndexed(s: Access, s': Access, g: Id)
    requires IndexAgrees(s) && (forall f :: f in s.files ==> s.files[f] in s.working)
    requires s'.files == s.files && s'.auths.Keys == s.auths.Keys
    requires forall a :: a in s.auths ==> s'.auths[a].dataset == s.auths[a].dataset
    requires forall a :: a in s.auths && g !in s.auths[a].groupIds ==> s'.auths[a] == s.auths[a]
    requires s' == Reindexed(s'.(fileIndex := s.fileIndex), Affected(s, g))
    ensures IndexAgrees(s')
  {
    forall f | f in s.files ensures Indexed(s', f) {
      assert Indexed(s, f);
      var d := s.files[f];
      if d !in Affected(s, g) {
        assert forall a :: a in s.auths && s.auths[a].dataset == d ==> g !in s.auths[a].groupIds;
        AllUsersSame(s.auths, s'.auths, d);
      }
    }
  }

  lemma {:induction false} LastWithIsThere(members: seq<Member>, u: string)
    ensures LastWith(members, u).Some? <==> u in Emails(members)
    ensures LastWith(members, u).Some? ==> LastWith(members, u).value in members && LastWith(members, u).value.email == u
  {
    if members != [] {
      var front, last := members[..|members| - 1], members[|members| - 1];
      LastWithIsThere(front, u);
      EmailsConcat(front, [last]);
      assert members == front + [last];
      assert Emails([last]) == [last.email];
    }
  }

  lemma {:induction false} EmailsAfterRemove(members: seq<Member>, m: Member, u: string)
    requires m in members
    ensures Count(Emails(RemoveFirst(members, m)), u) == Count(Emails(members), u) - if u == m.email then 1 else 0
  {
    var first, rest := [members[0]], members[1..];
    assert members == first + rest;
    EmailsConcat(first, rest);
    CountConcat(Emails(first), Emails(rest), u);
    assert Emails(first) == [members[0].email];
    if members[0] != m {
      EmailsAfterRemove(rest, m, u);
      EmailsConcat(first, RemoveFirst(rest, m));
      CountConcat(Emails(first), Emails(RemoveFirst(rest, m)), u);
    }
  }

  /** Removing a member takes one occurrence from every record of the group and no direct grant. */
  lemma RemoveMemberKeeps(s: Access, g: Id, u: string)
    requires Books(s)
    ensures Books(RemoveMember(s, g, u).0) && DirectKept(s, RemoveMember(s, g, u).0)
  {
    if g in s.groups && LastWith(s.groups[g], u).Some? {
      var s' := RemoveMember(s, g, u).0;
      var found := LastWith(s.groups[g], u).value;
      LastWithIsThere(s.groups[g], u);
      forall a | a in s.auths
        ensures GroupsListed(s'.groups, s'.auths[a]) && Counted(s'.groups, s'.auths[a])
        ensures SameDirect(s.groups, s.auths[a], s'.groups, s'.auths[a])
      {
        MembershipTaken(s.groups, s.auths[a], g, found);
      }
      SameGrants(s.auths, s'.auths);
    }
  }

  lemma MembershipTaken(groups: Groups, auth: Authorization, g: Id, found: Member)
    requires GroupsListed(groups, auth) && Counted(groups, auth) && g in groups && found in groups[g]
    ensures var auth' := if g in auth.groupIds then auth.(userIds := RemoveFirst(auth.userIds, found.email)) else auth;
            var groups' := groups[g := RemoveFirst(groups[g], found)];
            GroupsListed(groups', auth') && Counted(groups', auth') && SameDirect(groups, auth, groups', auth')
  {
    var u, members := found.email, RemoveFirst(groups[g], found);
    var auth' := if g in auth.groupIds then auth.(userIds := RemoveFirst(auth.userIds, u)) else auth;
    forall v ensures Direct(groups[g := members], auth', v) == Direct(groups, auth, v) {
      EmailsAfterRemove(groups[g], found, v);
      EmailsAfterRemove(groups[g], found, u);
      if g in auth.groupIds {
        MembershipsChange(groups, members, auth.groupIds, g, v);
        MembershipsOfOne(groups, auth.groupIds, g, u);
        assert Direct(groups, auth, u) >= 0;
        CountIn(auth.userIds, u);
        CountRemoveFirst(auth.userIds, u, v);
      } else {
        MembershipsElsewhere(groups, members, auth.groupIds, g, v);
      }
    }
    SameDirectSameCounted(groups, auth, groups[g := members], auth');
  }

  lemma RemoveMemberIndexes(s: Access, g: Id, u: string)
    requires IndexAgrees(s) && forall f :: f in s.files ==> s.files[f] in s.working
    ensures IndexAgrees(RemoveMember(s, g, u).0)
  {
    if g in s.groups && LastWith(s.groups[g], u).Some? {
      MembersIndexed(s, RemoveMember(s, g, u).0, g);
    }
  }

  // ----- User roles -----

  /** Removing a user's role keeps the bookkeeping exactly when the record it hits holds a direct
      grant of the user, which it then consumes: otherwise it consumes a group membership. */
  lemma RemoveUserRoleKeepsIff(s: Access, d: Id, u: string, a: Id)
    requires Books(s) && Visible(s, d) && u in s.users && a in Naming(s.auths, d, u)
    ensures var s' := RemoveUserRole(s, d, u, Some(a)).0;
            && (Books(s') <==> Direct(s.groups, s.auths[a], u) > 0)
            && s'.auths.Keys == s.auths.Keys && (forall b :: b in s.auths && b != a ==> s'.auths[b] == s.auths[b])
            && forall v :: Direct(s'.groups, s'.auths[a], v) ==
                           Direct(s.groups, s.auths[a], v) - if v == u then 1 else 0
  {
    var s' := RemoveUserRole(s, d, u, Some(a)).0;
    var auth, auth' := s.auths[a], s'.auths[a];
    forall v ensures Direct(s'.groups, auth', v) == Direct(s.groups, auth, v) - if v == u then 1 else 0 {
      CountRemoveFirst(auth.userIds, u, v);
    }
    SameGrants(s.auths, s'.auths);
    assert Counted(s.groups, auth);
    if Direct(s.groups, auth, u) == 0 {
      assert Direct(s'.groups, auth', u) < 0;
    }
  }

  lemma RemoveUserRoleIndexes(s: Access, d: Id, u: string, pick: Option<Id>)
    requires IndexAgrees(s) && Answers(pick, Naming(s.auths, d, u))
    ensures IndexAgrees(RemoveUserRole(s, d, u, pick).0)
  {
    if Visible(s, d) && u in s.users && pick.Some? {
      var auth := s.auths[pick.value];
      ReindexedAgrees(s, s.(auths := s.auths[pick.value := auth.(userIds := RemoveFirst(auth.userIds, u))]), {d});
    }
  }

  /** A grant adds exactly one direct grant of the user, in the record it returns. */
  lemma GrantUserGrantsOne(s: Access, d: Id, u: string, role: Role, into: Option<Id>)
    requires Books(s) && u in s.users && Answers(into, WithRole(s.auths, d, role)) && s.next !in s.auths
    ensures var (s', r) := GrantUser(s, d, u, role, into);
            && s'.groups == s.groups
            && (r.Err? ==> s' == s)
            && (r.Ok? ==> r.value.Some? && r.value.value in s'.auths && s'.auths.Keys == s.auths.Keys + {r.value.value} &&
                          GrantsOne(s, s', r.value.value, u))
  {
    var s' := GrantUser(s, d, u, role, into).0;
    hide GrantsOne, WithUser;
    if Refused(s, u, role) {
    } else if into.Some? && u !in s.auths[into.value].userIds {
      JoinedUserGrantsOne(s, s', into.value, u);
    } else {
      NewUserGrantsOne(s, s', d, u, role);
    }
  }

  lemma JoinedUserGrantsOne(s: Access, s': Access, a: Id, u: string)
    requires Books(s) && a in s.auths && u !in s.auths[a].userIds
    requires s'.groups == s.groups && s'.auths == s.auths[a := WithUser(s.groups, s.auths[a], u)]
    ensures GrantsOne(s, s', a, u)
  {
    assert Counted(s.groups, s.auths[a]) && Direct(s.groups, s.auths[a], u) >= 0;
    CountIn(s.auths[a].userIds, u);
    OneNameMore(s.groups, s.auths[a], u);
  }

  lemma NewUserGrantsOne(s: Access, s': Access, d: Id, u: string, role: Role)
    requires s.next !in s.auths
    requires s'.groups == s.groups && s'.auths == s.auths[s.next := Authorization(d, role, [u], [])]
    ensures GrantsOne(s, s', s.next, u)
  {
    forall v ensures Direct(s.groups, s'.auths[s.next], v) == if v == u then 1 else 0 {
      CountOne(u, v);
    }
  }

  ghost predicate GrantsOne(s: Access, s': Access, a: Id, u: string)
    requires a in s'.auths
  {
    && (forall b :: b in s.auths && b != a ==> b in s'.auths && s'.auths[b] == s.auths[b])
    && forall v :: Direct(s'.groups, s'.auths[a], v) ==
                   (if a in s.auths then Direct(s.groups, s.auths[a], v) else 0) + if v == u then 1 else 0
  }

  lemma OneNameMore(groups: Groups, auth: Authorization, u: string)
    requires Count(auth.userIds, u) == 0 && Memberships(groups, auth.groupIds, u) == 0
    ensures forall v :: Direct(groups, WithUser(groups, auth, u), v) ==
                        Direct(groups, auth, v) + if v == u then 1 else 0
  {
    CountConcat(auth.userIds, [u], u);
    assert WithUser(groups, auth, u) == auth.(userIds := auth.userIds + [u]);
    forall v ensures Direct(groups, WithUser(groups, auth, u), v) ==
                     Direct(groups, auth, v) + if v == u then 1 else 0 {
      CountConcat(auth.userIds, [u], v);
      CountOne(u, v);
    }
  }

  /** So it never breaks the bookkeeping. */
  lemma GrantUserKeeps(s: Access, d: Id, u: string, role: Role, into: Option<Id>)
    requires Books(s) && u in s.users && Answers(into, WithRole(s.auths, d, role)) && s.next !in s.auths
    ensures Books(GrantUser(s, d, u, role, into).0)
  {
    var (s', r) := GrantUser(s, d, u, role, into);
    GrantUserGrantsOne(s, d, u, role, into);
    if r.Ok? {
      var a := r.value.value;
      GrantedStaysCounted(s, s', a, u);
      UserGrantsNoGroup(s, d, u, role, into);
    }
  }

  lemma GrantedStaysCounted(s: Access, s': Access, a: Id, u: string)
    requires a in s'.auths && GrantsOne(s, s', a, u) && (a in s.auths ==> Counted(s.groups, s.auths[a]))
    ensures Counted(s'.groups, s'.auths[a])
  {
    forall v ensures Direct(s'.groups, s'.auths[a], v) >= 0 {
      assert a in s.auths ==> Direct(s.groups, s.auths[a], v) >= 0;
    }
  }

  lemma UserGrantsNoGroup(s: Access, d: Id, u: string, role: Role, into: Option<Id>)
    requires Books(s) && u in s.users && Answers(into, WithRole(s.auths, d, role)) && s.next !in s.auths
    ensures var s' := GrantUser(s, d, u, role, into).0;
            OneRolePerGroup(s'.auths) && forall a :: a in s'.auths ==> GroupsListed(s'.groups, s'.auths[a])
  {
    var s' := GrantUser(s, d, u, role, into).0;
    if Refused(s, u, role) {
    } else if into.Some? && u !in s.auths[into.value].userIds {
      NoGroupMore(s, s', into.value, WithUser(s.groups, s.auths[into.value], u));
    } else {
      NoGroupMore(s, s', s.next, Authorization(d, role, [u], []));
    }
  }

  lemma NoGroupMore(s: Access, s': Access, a: Id, auth: Authorization)
    requires Books(s) && s'.groups == s.groups && s'.auths == s.auths[a := auth]
    requires if a in s.auths then auth.dataset == s.auths[a].dataset && auth.groupIds == s.auths[a].groupIds
             else auth.groupIds == []
    ensures OneRolePerGroup(s'.auths) && forall b :: b in s'.auths ==> GroupsListed(s'.groups, s'.auths[b])
  {
    forall b, e, h | Grants(s'.auths, b, e, h) ensures Grants(s.auths, b, e, h) {
    }
    forall b, c, e, h | Grants(s'.auths, b, e, h) && Grants(s'.auths, c, e, h) ensures b == c {
      assert Grants(s.auths, b, e, h) && Grants(s.auths, c, e, h);
    }
  }

  lemma GrantUserIndexes(s: Access, d: Id, u: string, role: Role, into: Option<Id>)
    requires IndexAgrees(s) && u in s.users && Answers(into, WithRole(s.auths, d, role))
    requires forall a :: a in s.auths ==> a < s.next
    ensures IndexAgrees(GrantUser(s, d, u, role, into).0)
  {
    if s.users[u] && role != Viewer {
    } else if into.Some? && u !in s.auths[into.value].userIds {
      var granted := WithUser(s.groups, s.auths[into.value], u);
      ReindexedAgrees(s, s.(auths := s.auths[into.value := granted]), {d});
    } else {
      WithRecordIndexes(s, Authorization(d, role, [u], []));
    }
  }

  /** The grant is refused only after the removal: a read-only user cannot have more than a viewer role. */
  predicate Refused(s: Access, u: string, role: Role)
    requires u in s.users
  {
    s.users[u] && role != Viewer
  }

  /** Setting a user's role keeps the bookkeeping exactly when the removal before it hits no record, or
      one with a direct grant, or, unless the grant is refused, the very record granted into, of which it
      takes the only occurrence. */
  lemma SetUserRoleKeepsIff(s: Access, d: Id, u: string, role: Role, pick: Option<Id>, into: Option<Id>)
    requires Books(s) && Visible(s, d) && u in s.users && s.next !in s.auths
    requires Answers(pick, Naming(s.auths, d, u))
    requires Answers(into, WithRole(RemoveUserRole(s, d, u, pick).0.auths, d, role))
    ensures Books(SetUserRole(s, d, u, role, pick, into).0) <==>
            (pick.None? || Direct(s.groups, s.auths[pick.value], u) > 0 ||
             (!Refused(s, u, role) && into == pick && Count(s.auths[pick.value].userIds, u) == 1))
  {
    var s1 := RemoveUserRole(s, d, u, pick).0;
    if pick.None? {
      GrantUserKeeps(s1, d, u, role, into);
    } else {
      RemoveUserRoleKeepsIff(s, d, u, pick.value);
      if Refused(s, u, role) {
        RefusedStillStrips(s, d, u, role, pick, into);
      } else if Direct(s.groups, s.auths[pick.value], u) > 0 {
        GrantUserKeeps(s1, d, u, role, into);
      } else if into == pick && Count(s.auths[pick.value].userIds, u) == 1 {
        MembershipRestored(s, s1, d, u, role, pick.value);
      } else {
        MembershipLost(s, s1, d, u, role, pick.value, into);
      }
    }
  }

  /** A refused request has the effect of a removal. */
  lemma RefusedStillStrips(s: Access, d: Id, u: string, role: Role, pick: Option<Id>, into: Option<Id>)
    requires Visible(s, d) && u in s.users && Refused(s, u, role)
    requires Answers(pick, Naming(s.auths, d, u))
    requires Answers(into, WithRole(RemoveUserRole(s, d, u, pick).0.auths, d, role))
    ensures SetUserRole(s, d, u, role, pick, into) == (RemoveUserRole(s, d, u, pick).0, Err(405))
  {
  }

  /** The second append makes up for the membership the removal consumed. */
  lemma MembershipRestored(s: Access, s1: Access, d: Id, u: string, role: Role, a: Id)
    requires Books(s) && Visible(s, d) && u in s.users && (!s.users[u] || role == Viewer)
    requires a in Naming(s.auths, d, u) && Direct(s.groups, s.auths[a], u) == 0 && Count(s.auths[a].userIds, u) == 1
    requires s1 == RemoveUserRole(s, d, u, Some(a)).0 && a in WithRole(s1.auths, d, role)
    ensures Books(GrantUser(s1, d, u, role, Some(a)).0)
    ensures GrantUser(s1, d, u, role, Some(a)).1 == Ok(Some(a))
    ensures var s' := GrantUser(s1, d, u, role, Some(a)).0;
            s'.groups == s.groups && s'.auths.Keys == s.auths.Keys && GrantsOne(s, s', a, u)
  {
    var s' := GrantUser(s1, d, u, role, Some(a)).0;
    var auth1 := Taken(s.auths[a], u);
    RestoredDirect(s.groups, s.auths[a], u);
    CountRemoveFirst(s.auths[a].userIds, u, u);
    CountIn(auth1.userIds, u);
    assert s1.auths[a] == auth1 && s'.auths[a] == WithUser(s.groups, auth1, u);
    assert Counted(s.groups, s'.auths[a]) by {
      assert Counted(s.groups, s.auths[a]);
      forall v ensures Direct(s.groups, s'.auths[a], v) >= 0 {
        assert Direct(s.groups, s.auths[a], v) >= 0;
      }
    }
    SameGrants(s.auths, s'.auths);
  }

  lemma RestoredDirect(groups: Groups, auth: Authorization, u: string)
    requires Count(auth.userIds, u) == 1 && Direct(groups, auth, u) == 0
    ensures var auth' := WithUser(groups, Taken(auth, u), u);
            && auth'.groupIds == auth.groupIds
            && forall v :: Direct(groups, auth', v) == Direct(groups, auth, v) + if v == u then 1 else 0
  {
    var rest := RemoveFirst(auth.userIds, u);
    var auth' := WithUser(groups, Taken(auth, u), u);
    CountRemoveFirst(auth.userIds, u, u);
    CountConcat(rest, [u], u);
    assert auth' == auth.(userIds := rest + [u] + [u]);
    forall v ensures Direct(groups, auth', v) == Direct(groups, auth, v) + if v == u then 1 else 0 {
      CountRemoveFirst(auth.userIds, u, v);
      CountConcat(rest, [u], v);
      CountConcat(rest + [u], [u], v);
    }
  }

  lemma MembershipLost(s: Access, s1: Access, d: Id, u: string, role: Role, a: Id, into: Option<Id>)
    requires Books(s) && Visible(s, d) && u in s.users && (!s.users[u] || role == Viewer) && s.next !in s.auths
    requires a in Naming(s.auths, d, u) && Direct(s.groups, s.auths[a], u) == 0
    requires s1 == RemoveUserRole(s, d, u, Some(a)).0 && Answers(into, WithRole(s1.auths, d, role))
    requires !(into == Some(a) && Count(s.auths[a].userIds, u) == 1)
    ensures !Books(GrantUser(s1, d, u, role, into).0)
  {
    var s' := GrantUser(s1, d, u, role, into).0;
    CountRemoveFirst(s.auths[a].userIds, u, u);
    CountIn(s.auths[a].userIds, u);
    CountIn(s1.auths[a].userIds, u);
    assert s'.auths[a] == s1.auths[a];
    assert Direct(s'.groups, s'.auths[a], u) < 0;
  }

  /** A user without group-derived entries and with at most one entry ends up with exactly one
      entry on the dataset, in a record of the requested role. */
  lemma SetUserRoleLeavesOne(s: Access, d: Id, u: string, role: Role, pick: Option<Id>, into: Option<Id>)
    requires Visible(s, d) && u in s.users && s.next !in s.auths && (!s.users[u] || role == Viewer)
    requires Answers(pick, Naming(s.auths, d, u))
    requires Answers(into, WithRole(RemoveUserRole(s, d, u, pick).0.auths, d, role))
    requires forall a :: a in RecordsOf(s.auths, d) ==> Memberships(s.groups, s.auths[a].groupIds, u) == 0
    requires AllUsers(s.auths, d)[u] <= 1
    ensures var (s', r) := SetUserRole(s, d, u, role, pick, into);
            && r.Ok? && r.value.Some? && r.value.value in RecordsOf(s'.auths, d)
            && s'.auths[r.value.value].role == role && Count(s'.auths[r.value.value].userIds, u) == 1
            && AllUsers(s'.auths, d)[u] == 1
  {
    var s1 := RemoveUserRole(s, d, u, pick).0;
    OneEntryRemoved(s, d, u, pick);
    forall a | a in RecordsOf(s1.auths, d) ensures Count(s1.auths[a].userIds, u) == 0 {
      SumTakes(UsersOf(s1.auths), RecordsOf(s1.auths, d), a);
    }
    OneEntryGranted(s1, d, u, role, into);
  }

  lemma OneEntryGranted(s: Access, d: Id, u: string, role: Role, into: Option<Id>)
    requires u in s.users && s.next !in s.auths && (!s.users[u] || role == Viewer)
    requires Answers(into, WithRole(s.auths, d, role))
    requires forall a :: a in RecordsOf(s.auths, d) ==> Memberships(s.groups, s.auths[a].groupIds, u) == 0
    requires forall a :: a in RecordsOf(s.auths, d) ==> Count(s.auths[a].userIds, u) == 0
    ensures var (s', r) := GrantUser(s, d, u, role, into);
            && r.Ok? && r.value.Some? && r.value.value in RecordsOf(s'.auths, d)
            && s'.auths[r.value.value].role == role && Count(s'.auths[r.value.value].userIds, u) == 1
            && AllUsers(s'.auths, d)[u] == 1
  {
    var (s', r) := GrantUser(s, d, u, role, into);
    var to := r.value.value;
    if into.Some? {
      assert into.value in RecordsOf(s.auths, d);
      CountIn(s.auths[into.value].userIds, u);
      CountConcat(s.auths[into.value].userIds, [u], u);
    }
    assert Count(s'.auths[to].userIds, u) == 1;
    forall a | a in RecordsOf(s'.auths, d) - {to} ensures UsersOf(s'.auths)(a)[u] == 0 {
      assert a in RecordsOf(s.auths, d);
    }
    SumTakes(UsersOf(s'.auths), RecordsOf(s'.auths, d), to);
    SumOfNone(s'.auths, RecordsOf(s'.auths, d) - {to}, u);
  }

  lemma {:induction false} SumOfNone(auths: Auths, ids: set<Id>, u: string)
    requires forall a :: a in ids ==> UsersOf(auths)(a)[u] == 0
    ensures Sum(UsersOf(auths), ids)[u] == 0
  {
    if ids != {} {
      var a :| a in ids;
      SumOfNone(auths, ids - {a}, u);
      SumTakes(UsersOf(auths), ids, a);
    }
  }

  lemma OneEntryRemoved(s: Access, d: Id, u: string, pick: Option<Id>)
    requires Visible(s, d) && u in s.users && Answers(pick, Naming(s.auths, d, u)) && AllUsers(s.auths, d)[u] <= 1
    ensures AllUsers(RemoveUserRole(s, d, u, pick).0.auths, d)[u] == 0
  {
    var s1 := RemoveUserRole(s, d, u, pick).0;
    var ids := RecordsOf(s.auths, d);
    if pick.None? {
      forall a | a in ids ensures UsersOf(s.auths)(a)[u] == 0 {
        assert a !in Naming(s.auths, d, u);
      }
      SumOfNone(s.auths, ids, u);
    } else {
      var a := pick.value;
      assert RecordsOf(s1.auths, d) == ids && a in ids;
      SumTakes(UsersOf(s.auths), ids, a);
      SumTakes(UsersOf(s1.auths), ids, a);
      SumSame(UsersOf(s.auths), UsersOf(s1.auths), ids - {a});
      CountIn(s.auths[a].userIds, u);
      CountRemoveFirst(s.auths[a].userIds, u, u);
    }
  }

  // ----- Reading the roles back -----

  /** The listing recovers the direct grants: a registered user is listed individually for a record
      exactly when the record holds a direct grant of that user. */
  lemma ListedIffDirect(s: Access, a: Id, u: string)
    requires Books(s) && a in s.auths && u in s.users
    ensures u in Individually(s, s.auths[a]) <==> Direct(s.groups, s.auths[a], u) > 0
  {
    assert Counted(s.groups, s.auths[a]);
    assert Direct(s.groups, s.auths[a], u) >= 0;
    CountIn(s.auths[a].userIds, u);
  }
}
