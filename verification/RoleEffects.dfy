/** What each role and group route does, told from the records and groups before and after it: who gains or
    loses an occurrence in which record, of which role, and that no other record changes. */
module RoleEffects {
  import opened Types
  import opened Multisets
  import opened State
  import opened Roles
  import opened RoleSteps

  /** How many members with the email `v` are read-only, or are not. */
  function Times(members: seq<Member>, v: string, readOnly: bool): nat {
    if members == [] then 0
    else (if members[0].email == v && members[0].readOnly == readOnly then 1 else 0) + Times(members[1..], v, readOnly)
  }

  lemma TimesCons(m: Member, rest: seq<Member>, v: string, readOnly: bool)
    ensures Times([m] + rest, v, readOnly) ==
            (if m.email == v && m.readOnly == readOnly then 1 else 0) + Times(rest, v, readOnly)
  {
    assert ([m] + rest)[1..] == rest;
  }

  /** The members of one kind. */
  function OfKind(members: seq<Member>, readOnly: bool): seq<Member> {
    if readOnly then Readers(members) else Writers(members)
  }

  lemma {:induction false} TimesAreCounts(members: seq<Member>, v: string, readOnly: bool)
    ensures Count(Emails(OfKind(members, readOnly)), v) == Times(members, v, readOnly)
  {
    if members != [] {
      var m, rest := members[0], members[1..];
      assert members == [m] + rest;
      TimesAreCounts(rest, v, readOnly);
      ReadersCons(m, rest);
      CountCons(m, OfKind(rest, readOnly), v);
      TimesCons(m, rest, v, readOnly);
      hide Count, Emails, Times, Readers, Writers;
    }
  }

  lemma {:induction false} SomeReadOnly(members: seq<Member>)
    ensures Readers(members) != [] <==> exists m :: m in members && m.readOnly
    ensures Writers(members) != [] <==> exists m :: m in members && !m.readOnly
  {
    if members != [] {
      var m, rest := members[0], members[1..];
      assert members == [m] + rest;
      SomeReadOnly(rest);
      ReadersCons(m, rest);
    }
  }

  /** All records but `a` are the same. */
  ghost predicate OnlyRecord(auths: Auths, auths': Auths, a: Id) {
    forall b :: b != a ==> (b in auths' <==> b in auths) && (b in auths ==> auths'[b] == auths[b])
  }

  /** Every record of `auths` but `a`, if that is one, is the same; there may be new ones. */
  ghost predicate OthersStay(auths: Auths, auths': Auths, a: Option<Id>) {
    forall b :: b in auths && a != Some(b) ==> b in auths' && auths'[b] == auths[b]
  }

  /** Nothing but records and the index of files has changed. */
  predicate RecordsOnly(s: Access, s': Access) {
    s' == s.(auths := s'.auths, fileIndex := s'.fileIndex, next := s'.next)
  }

  /** Record `a` is one of `d` with the role. */
  predicate HasRole(auths: Auths, a: Id, d: Id, role: Role) {
    a in auths && auths[a].dataset == d && auths[a].role == role
  }

  /** `into` answers the query for a record of the role. */
  ghost predicate FindsRole(auths: Auths, d: Id, role: Role, into: Option<Id>) {
    if into.Some? then HasRole(auths, into.value, d, role) else forall a :: !HasRole(auths, a, d, role)
  }

  lemma RoleIsFound(auths: Auths, d: Id, role: Role, into: Option<Id>)
    ensures FindsRole(auths, d, role, into) <==> Answers(into, WithRole(auths, d, role))
  {
    assert forall a :: a in WithRole(auths, d, role) <==> HasRole(auths, a, d, role);
    assert WithRole(auths, d, role) == {} <==> forall a :: a !in WithRole(auths, d, role);
  }

  /** Record `a` is of `d` with the role, the group's last, and names each email as often as before, not at all
      if it is new, and once more for each member of that kind. */
  ghost predicate GainsMembers(auths: Auths, auths': Auths, a: Id, d: Id, role: Role, g: Id, members: seq<Member>,
                               readOnly: bool)
  {
    var ids, names := if a in auths then auths[a].groupIds else [], if a in auths then auths[a].userIds else [];
    && HasRole(auths', a, d, role) && auths'[a].groupIds == ids + [g]
    && forall v :: Count(auths'[a].userIds, v) == Count(names, v) + Times(members, v, readOnly)
  }

  /** A group is granted a role: its members who are not read-only enter the record of that role the route
      returns, and nobody else does; its read-only members enter a new viewer record, which there is exactly if
      there are any. No other record changes. */
  ghost predicate GroupGranted(auths: Auths, auths': Auths, members: seq<Member>, d: Id, g: Id, role: Role,
                               into: Option<Id>, r: Outcome<Option<Id>>)
  {
    && OthersStay(auths, auths', into)
    && (r.Err? <==> into.None? && forall m :: m in members ==> m.readOnly) && (r.Err? ==> r == Err(500))
    && (r.Ok? ==> r.value.Some? && (into.Some? ==> r.value == into) &&
                  GainsMembers(auths, auths', r.value.value, d, role, g, members, false))
    && (forall a :: IsExtra(auths, auths', r, a) ==> GainsMembers(auths, auths', a, d, Viewer, g, members, true))
    && ((exists a :: IsExtra(auths, auths', r, a)) <==> exists m :: m in members && m.readOnly)
    && forall a, b :: IsExtra(auths, auths', r, a) && IsExtra(auths, auths', r, b) ==> a == b
  }

  /** A new record other than the one returned. */
  predicate IsExtra(auths: Auths, auths': Auths, r: Outcome<Option<Id>>, a: Id) {
    a in auths' && a !in auths && !(r.Ok? && r.value == Some(a))
  }

  lemma JoinedGains(groups: Groups, auths: Auths, auths': Auths, d: Id, g: Id, role: Role, a: Id)
    requires g in groups && HasRole(auths, a, d, role) && a in auths' && auths'[a] == Joined(groups, auths[a], g)
    ensures GainsMembers(auths, auths', a, d, role, g, groups[g], false)
  {
    var members := groups[g];
    forall v ensures Count(auths'[a].userIds, v) == Count(auths[a].userIds, v) + Times(members, v, false) {
      TimesAreCounts(members, v, false);
      CountConcat(auths[a].userIds, Emails(Writers(members)), v);
    }
  }

  lemma NewGains(auths: Auths, auths': Auths, a: Id, d: Id, role: Role, g: Id, members: seq<Member>, readOnly: bool)
    requires a !in auths && a in auths'
    requires auths'[a] == Authorization(d, role, Emails(OfKind(members, readOnly)), [g])
    ensures GainsMembers(auths, auths', a, d, role, g, members, readOnly)
  {
    forall v ensures Count(auths'[a].userIds, v) == Times(members, v, readOnly) {
      TimesAreCounts(members, v, readOnly);
    }
    assert [] + [g] == [g];
  }

  lemma GrantGroupPlaces(s: Access, d: Id, g: Id, role: Role, into: Option<Id>)
    requires g in s.groups && FindsRole(s.auths, d, role, into) && forall a :: a in s.auths ==> a < s.next
    ensures Answers(into, WithRole(s.auths, d, role))
    ensures var (s', r) := GrantGroup(s, d, g, role, into);
            if into.Some? && g in s.auths[into.value].groupIds then s' == s && r == Ok(into)
            else RecordsOnly(s, s') && GroupGranted(s.auths, s'.auths, s.groups[g], d, g, role, into, r)
  {
    RoleIsFound(s.auths, d, role, into);
    if into.Some? {
      if g !in s.auths[into.value].groupIds {
        JoiningPlaces(s, d, g, role, into.value);
        hide GrantJoining, GroupGranted;
      }
    } else {
      NewRecordsPlace(s, d, g, role);
    }
  }

  lemma Assembled(auths: Auths, auths': Auths, members: seq<Member>, d: Id, g: Id, role: Role, into: Option<Id>,
                  r: Outcome<Option<Id>>, extra: Option<Id>)
    requires OthersStay(auths, auths', into)
    requires (r.Err? <==> into.None? && forall m :: m in members ==> m.readOnly) && (r.Err? ==> r == Err(500))
    requires r.Ok? ==> r.value.Some? && (into.Some? ==> r.value == into) &&
                       GainsMembers(auths, auths', r.value.value, d, role, g, members, false)
    requires forall a: Id :: IsExtra(auths, auths', r, a) <==> extra == Some(a)
    requires extra.Some? ==> GainsMembers(auths, auths', extra.value, d, Viewer, g, members, true)
    requires extra.Some? <==> exists m :: m in members && m.readOnly
    ensures GroupGranted(auths, auths', members, d, g, role, into, r)
  {
    hide OthersStay, GainsMembers, IsExtra;
    if extra.Some? {
      assert IsExtra(auths, auths', r, extra.value);
    }
  }

  lemma JoiningPlaces(s: Access, d: Id, g: Id, role: Role, a: Id)
    requires g in s.groups && HasRole(s.auths, a, d, role) && forall a :: a in s.auths ==> a < s.next
    ensures var s' := GrantJoining(s, d, g, a);
            RecordsOnly(s, s') && GroupGranted(s.auths, s'.auths, s.groups[g], d, g, role, Some(a), Ok(Some(a)))
  {
    hide GainsMembers, Joined, Entries, Readers, Emails, GroupGranted;
    var s', members := GrantJoining(s, d, g, a), s.groups[g];
    SomeReadOnly(members);
    JoinedGains(s.groups, s.auths, s'.auths, d, g, role, a);
    assert s.next !in s.auths;
    var extra := if Readers(members) == [] then None else Some(s.next);
    if Readers(members) != [] {
      NewGains(s.auths, s'.auths, s.next, d, Viewer, g, members, true);
    }
    Assembled(s.auths, s'.auths, members, d, g, role, Some(a), Ok(Some(a)), extra);
  }

  lemma NewRecordsPlace(s: Access, d: Id, g: Id, role: Role)
    requires g in s.groups && WithRole(s.auths, d, role) == {} && forall a :: a in s.auths ==> a < s.next
    ensures var (s', r) := GrantGroup(s, d, g, role, None);
            RecordsOnly(s, s') && GroupGranted(s.auths, s'.auths, s.groups[g], d, g, role, None, r)
  {
    hide GainsMembers, ViewerRecord, Entries, Readers, Writers, GrantGroup, Emails, GroupGranted;
    var (s', r) := GrantGroup(s, d, g, role, None);
    var members := s.groups[g];
    SomeReadOnly(members);
    assert s.next !in s.auths && s.next + 1 !in s.auths;
    NewRecordsAre(s, d, g, role);
    var extra := if Readers(members) == [] then None else Some(s.next);
    if Readers(members) != [] {
      NewGains(s.auths, s'.auths, s.next, d, Viewer, g, members, true);
    }
    if Writers(members) != [] {
      NewGains(s.auths, s'.auths, r.value.value, d, role, g, members, false);
    }
    Assembled(s.auths, s'.auths, members, d, g, role, None, r, extra);
  }

  lemma NewRecordsAre(s: Access, d: Id, g: Id, role: Role)
    requires g in s.groups && WithRole(s.auths, d, role) == {}
    ensures var (s', r) := GrantGroup(s, d, g, role, None);
            var members := s.groups[g];
            var auths := if Readers(members) == [] then s.auths
                         else s.auths[s.next := Authorization(d, Viewer, Emails(Readers(members)), [g])];
            var a := if Readers(members) == [] then s.next else s.next + 1;
            && RecordsOnly(s, s')
            && (Writers(members) == [] ==> r == Err(500) && s'.auths == auths)
            && (Writers(members) != [] ==>
                  r == Ok(Some(a)) && s'.auths == auths[a := Authorization(d, role, Emails(Writers(members)), [g])])
  {
    var s1 := ViewerAdded(s, d, g);
    EmailsOfSome(Writers(s.groups[g]));
    RecordMade(s, ViewerRecord(s.groups, d, g));
    RecordMade(s1, Authorization(d, role, Emails(Writers(s.groups[g])), [g]));
    hide WithRecord, Readers, Writers, Emails, WithRole;
  }

  lemma RecordMade(s: Access, auth: Authorization)
    ensures var s' := WithRecord(s, auth);
            RecordsOnly(s, s') && s'.auths == s.auths[s.next := auth] && s'.next == s.next + 1
  {
    hide Entries;
  }

  // ----- Taking a group's role away -----

  predicate IsThere(s: Access, d: Id) {
    d in s.working || d in s.frozen
  }

  predicate GivesRole(auths: Auths, a: Id, d: Id, g: Id) {
    a in auths && auths[a].dataset == d && g in auths[a].groupIds
  }

  ghost predicate FindsGroup(auths: Auths, d: Id, g: Id, pick: Option<Id>) {
    if pick.Some? then GivesRole(auths, pick.value, d, g) else forall a :: !GivesRole(auths, a, d, g)
  }

  lemma GroupIsFound(auths: Auths, d: Id, g: Id, pick: Option<Id>)
    ensures FindsGroup(auths, d, g, pick) <==> Answers(pick, GrantedTo(auths, d, g))
  {
    assert forall a :: a in GrantedTo(auths, d, g) <==> GivesRole(auths, a, d, g);
    assert GrantedTo(auths, d, g) == {} <==> forall a :: a !in GrantedTo(auths, d, g);
  }

  /** Of record `a` only the lists change: each id and each email is in them as often as before, less what is
      taken, as far as it was there. */
  ghost predicate Lists(auths: Auths, auths': Auths, a: Id, takenIds: multiset<Id>, takenNames: multiset<string>) {
    && a in auths && a in auths' && OnlyRecord(auths, auths', a)
    && auths'[a].dataset == auths[a].dataset && auths'[a].role == auths[a].role
    && multiset(auths'[a].groupIds) == multiset(auths[a].groupIds) - takenIds
    && multiset(auths'[a].userIds) == multiset(auths[a].userIds) - takenNames
  }

  /** The record the query found loses the group and one occurrence of each member's email, where there is one;
      nothing else changes. */
  lemma RemoveGroupRoleTakes(s: Access, d: Id, g: Id, pick: Option<Id>)
    requires FindsGroup(s.auths, d, g, pick)
    ensures Answers(pick, GrantedTo(s.auths, d, g))
    ensures var (s', r) := RemoveGroupRole(s, d, g, pick);
            && (r == if IsThere(s, d) && g in s.groups then Ok(pick) else Err(404))
            && (r.Err? || pick.None? ==> s' == s)
            && (r.Ok? && pick.Some? ==>
                  RecordsOnly(s, s') && s'.next == s.next &&
                  Lists(s.auths, s'.auths, pick.value, multiset{g}, multiset(Emails(s.groups[g]))))
  {
    GroupIsFound(s.auths, d, g, pick);
    if IsThere(s, d) && g in s.groups && pick.Some? {
      RemoveFirstTakesOne(s.auths[pick.value].groupIds, g);
      RemoveEachTakesAll(s.auths[pick.value].userIds, Emails(s.groups[g]));
      hide RemoveFirst, RemoveEach, Entries, Emails;
    }
  }

  // ----- Granting and taking away a user's role -----

  predicate Names(auths: Auths, a: Id, d: Id, u: string) {
    a in auths && auths[a].dataset == d && u in auths[a].userIds
  }

  ghost predicate FindsUser(auths: Auths, d: Id, u: string, pick: Option<Id>) {
    if pick.Some? then Names(auths, pick.value, d, u) else forall a :: !Names(auths, a, d, u)
  }

  lemma UserIsFound(auths: Auths, d: Id, u: string, pick: Option<Id>)
    ensures FindsUser(auths, d, u, pick) <==> Answers(pick, Naming(auths, d, u))
  {
    assert forall a :: a in Naming(auths, d, u) <==> Names(auths, a, d, u);
    assert Naming(auths, d, u) == {} <==> forall a :: a !in Naming(auths, d, u);
  }

  /** The record the query found names the user once less; nothing else changes. */
  lemma RemoveUserRoleTakes(s: Access, d: Id, u: string, pick: Option<Id>)
    requires FindsUser(s.auths, d, u, pick)
    ensures Answers(pick, Naming(s.auths, d, u))
    ensures var (s', r) := RemoveUserRole(s, d, u, pick);
            && (r == if IsThere(s, d) && u in s.users then Ok(pick) else Err(404))
            && (r.Err? || pick.None? ==> s' == s)
            && (r.Ok? && pick.Some? ==>
                  RecordsOnly(s, s') && s'.next == s.next &&
                  Lists(s.auths, s'.auths, pick.value, multiset{}, multiset{u}))
  {
    UserIsFound(s.auths, d, u, pick);
    if IsThere(s, d) && u in s.users && pick.Some? {
      RemoveFirstTakesOne(s.auths[pick.value].userIds, u);
      hide RemoveFirst, Entries;
    }
  }

  /** Record `a` is the one of the role that was joined, or a new one: it names the user once more, or twice where
      the groups of the record have the user once, so that the one would pass for the membership. */
  ghost predicate UserPlaced(groups: Groups, auths: Auths, auths': Auths, d: Id, u: string, role: Role, a: Id) {
    && OnlyRecord(auths, auths', a) && HasRole(auths', a, d, role)
    && auths'[a].groupIds == (if a in auths then auths[a].groupIds else [])
    && multiset(auths'[a].userIds) ==
       (if a in auths then multiset(auths[a].userIds) else multiset{}) +
       (if a in auths && Memberships(groups, auths[a].groupIds, u) == 1 then multiset{u, u} else multiset{u})
  }

  /** A grant to a user: refused to a read-only user unless it is a viewer's; into the record of the role if that
      does not name the user yet, otherwise into a new one that names nobody else. */
  lemma GrantUserPlaces(s: Access, d: Id, u: string, role: Role, into: Option<Id>)
    requires u in s.users && FindsRole(s.auths, d, role, into) && forall a :: a in s.auths ==> a < s.next
    ensures Answers(into, WithRole(s.auths, d, role))
    ensures var (s', r) := GrantUser(s, d, u, role, into);
            var joins := into.Some? && u !in s.auths[into.value].userIds;
            && (r.Err? <==> s.users[u] && role != Viewer)
            && (r.Err? ==> r == Err(405) && s' == s)
            && (r.Ok? ==> r.value.Some? && (joins ==> r.value == into) && (joins <==> r.value.value in s.auths) &&
                          RecordsOnly(s, s') && UserPlaced(s.groups, s.auths, s'.auths, d, u, role, r.value.value))
  {
    RoleIsFound(s.auths, d, role, into);
    if !(s.users[u] && role != Viewer) {
      if into.Some? && u !in s.auths[into.value].userIds {
        JoinedPlaced(s, d, u, role, into.value);
      } else {
        NewlyPlaced(s, d, u, role);
      }
      hide UserPlaced, WithUser, Entries, WithRecord;
    }
  }

  lemma JoinedPlaced(s: Access, d: Id, u: string, role: Role, a: Id)
    requires HasRole(s.auths, a, d, role) && u !in s.auths[a].userIds
    ensures var s' := Reindexed(s.(auths := s.auths[a := WithUser(s.groups, s.auths[a], u)]), {d});
            RecordsOnly(s, s') && UserPlaced(s.groups, s.auths, s'.auths, d, u, role, a)
  {
    WithUserNames(s.groups, s.auths[a], u);
    hide WithUser, Entries;
  }

  lemma NewlyPlaced(s: Access, d: Id, u: string, role: Role)
    requires forall a :: a in s.auths ==> a < s.next
    ensures var s' := WithRecord(s, Authorization(d, role, [u], []));
            RecordsOnly(s, s') && UserPlaced(s.groups, s.auths, s'.auths, d, u, role, s.next) && s.next !in s.auths
  {
    assert s.next !in s.auths && multiset([u]) == multiset{u};
    hide Entries;
  }

  lemma WithUserNames(groups: Groups, auth: Authorization, u: string)
    requires u !in auth.userIds
    ensures var auth' := WithUser(groups, auth, u);
            && auth'.dataset == auth.dataset && auth'.role == auth.role && auth'.groupIds == auth.groupIds
            && multiset(auth'.userIds) ==
               multiset(auth.userIds) + if Memberships(groups, auth.groupIds, u) == 1 then multiset{u, u} else multiset{u}
  {
    var once := auth.userIds + [u];
    CountIn(auth.userIds, u);
    CountConcat(auth.userIds, [u], u);
    CountOne(u, u);
    assert multiset(once) == multiset(auth.userIds) + multiset{u};
    assert multiset(once + [u]) == multiset(once) + multiset{u};
  }

  // ----- Setting a role: the old one goes first -----

  /** Between the two parts of the route: the group has left the record that was found, if one was. */
  ghost predicate GroupLeft(s: Access, auths: Auths, g: Id, pick: Option<Id>)
    requires g in s.groups
  {
    if pick.Some? then Lists(s.auths, auths, pick.value, multiset{g}, multiset(Emails(s.groups[g]))) else auths == s.auths
  }

  lemma SetGroupRolePlaces(s: Access, d: Id, g: Id, role: Role, pick: Option<Id>, into: Option<Id>)
    requires FindsGroup(s.auths, d, g, pick) && forall a :: a in s.auths ==> a < s.next
    requires Answers(pick, GrantedTo(s.auths, d, g))
    requires FindsRole(RemoveGroupRole(s, d, g, pick).0.auths, d, role, into)
    ensures Answers(into, WithRole(RemoveGroupRole(s, d, g, pick).0.auths, d, role))
    ensures var (s', r) := SetGroupRole(s, d, g, role, pick, into);
            if IsThere(s, d) && g in s.groups then
              RecordsOnly(s, s') &&
              exists auths: Auths :: GroupLeft(s, auths, g, pick) && (into.Some? ==> into.value in auths) &&
                              if into.Some? && g in auths[into.value].groupIds then s'.auths == auths && r == Ok(into)
                              else GroupGranted(auths, s'.auths, s.groups[g], d, g, role, into, r)
            else s' == s && r == Err(404)
  {
    RoleIsFound(RemoveGroupRole(s, d, g, pick).0.auths, d, role, into);
    RemoveGroupRoleTakes(s, d, g, pick);
    if IsThere(s, d) && g in s.groups {
      var s1 := RemoveGroupRole(s, d, g, pick).0;
      GrantGroupPlaces(s1, d, g, role, into);
      assert GroupLeft(s, s1.auths, g, pick);
      hide GroupGranted, GroupLeft, Lists, RemoveGroupRole, GrantGroup;
    }
  }

  /** Whoever is in the group has the role afterwards, read-only members that of a viewer. */
  lemma EveryMemberPlaced(auths: Auths, auths': Auths, members: seq<Member>, d: Id, g: Id, role: Role, into: Option<Id>,
                          r: Outcome<Option<Id>>, m: Member)
    requires GroupGranted(auths, auths', members, d, g, role, into, r) && m in members
    ensures m.readOnly ==> exists a :: HasRole(auths', a, d, Viewer) && g in auths'[a].groupIds && m.email in auths'[a].userIds
    ensures !m.readOnly ==> r.Ok? && r.value.Some? && HasRole(auths', r.value.value, d, role) &&
                            g in auths'[r.value.value].groupIds && m.email in auths'[r.value.value].userIds
  {
    MemberCounts(members, m);
    if m.readOnly {
      var a :| IsExtra(auths, auths', r, a);
      assert GainsMembers(auths, auths', a, d, Viewer, g, members, true);
      CountIn(auths'[a].userIds, m.email);
    } else {
      CountIn(auths'[r.value.value].userIds, m.email);
    }
  }

  lemma {:induction false} MemberCounts(members: seq<Member>, m: Member)
    requires m in members
    ensures Times(members, m.email, m.readOnly) > 0
  {
    if members[0] != m {
      MemberCounts(members[1..], m);
    }
  }

  lemma SetUserRolePlaces(s: Access, d: Id, u: string, role: Role, pick: Option<Id>, into: Option<Id>)
    requires FindsUser(s.auths, d, u, pick) && forall a :: a in s.auths ==> a < s.next
    requires Answers(pick, Naming(s.auths, d, u))
    requires FindsRole(RemoveUserRole(s, d, u, pick).0.auths, d, role, into)
    ensures Answers(into, WithRole(RemoveUserRole(s, d, u, pick).0.auths, d, role))
    ensures var (s', r) := SetUserRole(s, d, u, role, pick, into);
            if IsThere(s, d) && u in s.users then
              RecordsOnly(s, s') &&
              exists auths: Auths :: UserLeft(s.auths, auths, u, pick) &&
                                     if s.users[u] && role != Viewer then s'.auths == auths && r == Err(405)
                                     else r.Ok? && r.value.Some? &&
                                          UserPlaced(s.groups, auths, s'.auths, d, u, role, r.value.value)
            else s' == s && r == Err(404)
  {
    hide UserPlaced, UserLeft, Lists, RemoveUserRole, GrantUser, FindsRole, FindsUser, WithRole, Naming;
    RoleIsFound(RemoveUserRole(s, d, u, pick).0.auths, d, role, into);
    UserHasLeft(s, d, u, pick);
    if IsThere(s, d) && u in s.users {
      var s1 := RemoveUserRole(s, d, u, pick).0;
      GrantUserPlaces(s1, d, u, role, into);
      assert UserLeft(s.auths, s1.auths, u, pick);
      assert SetUserRole(s, d, u, role, pick, into) == GrantUser(s1, d, u, role, into);
      assert s1.users == s.users && s1.groups == s.groups;
    }
  }

  lemma UserHasLeft(s: Access, d: Id, u: string, pick: Option<Id>)
    requires FindsUser(s.auths, d, u, pick) && forall a :: a in s.auths ==> a < s.next
    requires Answers(pick, Naming(s.auths, d, u))
    ensures var s1 := RemoveUserRole(s, d, u, pick).0;
            && RecordsOnly(s, s1) && (IsThere(s, d) && u in s.users ==> UserLeft(s.auths, s1.auths, u, pick))
            && forall a :: a in s1.auths ==> a < s1.next
  {
    RemoveUserRoleTakes(s, d, u, pick);
    hide RemoveUserRole;
  }

  ghost predicate UserLeft(auths: Auths, auths': Auths, u: string, pick: Option<Id>) {
    if pick.Some? then Lists(auths, auths', pick.value, multiset{}, multiset{u}) else auths' == auths
  }

  // ----- Members -----

  /** A new member at the end of the group, read-only as the user is and editor as asked; each record of the group
      names the user once more, and no other changes. */
  lemma AddMemberPlaces(s: Access, g: Id, u: string, editor: bool)
    ensures var (s', r) := AddMember(s, g, u, editor);
            var known := u in s.users && g in s.groups;
            var member := known && exists m :: m in s.groups[g] && m.email == u;
            && (r == if known then Ok(g) else Err(404))
            && (!known || member ==> s' == s)
            && (known && !member ==>
                  && s' == s.(groups := s'.groups, auths := s'.auths, fileIndex := s'.fileIndex)
                  && s'.groups == s.groups[g := s.groups[g] + [Member(u, s.users[u], editor)]]
                  && s'.auths.Keys == s.auths.Keys
                  && forall a :: a in s.auths ==>
                       s'.auths[a] == if g in s.auths[a].groupIds then s.auths[a].(userIds := s.auths[a].userIds + [u])
                                      else s.auths[a])
  {
    if g in s.groups {
      EmailsAreMembers(s.groups[g], u);
      hide Emails, Entries, Affected;
    }
  }

  lemma {:induction false} EmailsAreMembers(members: seq<Member>, u: string)
    ensures u in Emails(members) <==> exists m :: m in members && m.email == u
  {
    if members != [] {
      EmailsAreMembers(members[1..], u);
      assert members == [members[0]] + members[1..];
      if u in Emails(members) && members[0].email != u {
        assert u in Emails(members[1..]);
      }
    }
  }

  /** `k` is the place of the last member with that email. */
  predicate LastAt(members: seq<Member>, u: string, k: nat) {
    k < |members| && members[k].email == u && forall j :: k < j < |members| ==> members[j].email != u
  }

  lemma {:induction false} LastWithIsLast(members: seq<Member>, u: string)
    ensures LastWith(members, u).None? <==> forall j :: 0 <= j < |members| ==> members[j].email != u
    ensures LastWith(members, u).Some? ==> exists k: nat :: LastAt(members, u, k) && LastWith(members, u).value == members[k]
  {
    if members != [] {
      var front, last := members[..|members| - 1], members[|members| - 1];
      LastWithIsLast(front, u);
      if last.email == u {
        assert LastAt(members, u, |members| - 1);
      } else if LastWith(front, u).Some? {
        var k: nat :| LastAt(front, u, k) && LastWith(front, u).value == front[k];
        assert LastAt(members, u, k) && members[k] == front[k];
      }
    }
  }

  /** A record that has the group names the user once less, where it does at all; another is the same. */
  ghost predicate NamesLess(auth: Authorization, auth': Authorization, g: Id, u: string) {
    && auth' == auth.(userIds := auth'.userIds)
    && if g in auth.groupIds then multiset(auth'.userIds) == multiset(auth.userIds) - multiset{u} else auth' == auth
  }

  ghost predicate NamedLess(auths: Auths, auths': Auths, g: Id, u: string) {
    auths'.Keys == auths.Keys && forall a :: a in auths ==> NamesLess(auths[a], auths'[a], g, u)
  }

  lemma PulledNamesLess(auths: Auths, g: Id, u: string)
    ensures NamedLess(auths, Pulled(auths, g, u), g, u)
  {
    forall a | a in auths ensures NamesLess(auths[a], Pulled(auths, g, u)[a], g, u) {
      RemoveFirstTakesOne(auths[a].userIds, u);
      hide RemoveFirst;
    }
    hide NamesLess;
  }

  /** The group loses one member like the last one with that email, and its records name the user once less. */
  lemma RemoveMemberTakes(s: Access, g: Id, u: string)
    ensures var (s', r) := RemoveMember(s, g, u);
            var member := g in s.groups && exists k: nat :: LastAt(s.groups[g], u, k);
            && (r == if g in s.groups then Ok(g) else Err(404))
            && (!member ==> s' == s)
            && (member ==>
                  && s' == s.(groups := s'.groups, auths := s'.auths, fileIndex := s'.fileIndex)
                  && NamedLess(s.auths, s'.auths, g, u) && g in s'.groups && s'.groups == s.groups[g := s'.groups[g]]
                  && exists k: nat :: LastAt(s.groups[g], u, k) &&
                                      multiset(s'.groups[g]) == multiset(s.groups[g]) - multiset{s.groups[g][k]})
  {
    if g in s.groups {
      LastWithIsLast(s.groups[g], u);
      PulledNamesLess(s.auths, g, u);
      if LastWith(s.groups[g], u).Some? {
        RemoveFirstTakesOne(s.groups[g], LastWith(s.groups[g], u).value);
      }
      hide RemoveFirst, Entries, Affected, LastWith, NamedLess, Pulled;
    }
  }

  // ----- Reading the roles back -----

  function MembersOf(groups: Groups): Id -> multiset<string> {
    g => if g in groups then multiset(Emails(groups[g])) else multiset{}
  }

  function Assigned(ids: seq<Id>): set<Id> {
    set g | g in ids
  }

  /** A user has as many memberships as the emails of the listed groups taken together, each group once however
      often it is listed. */
  lemma {:induction false} MembershipsAreSums(groups: Groups, ids: seq<Id>, u: string)
    ensures Memberships(groups, ids, u) == Sum(MembersOf(groups), Assigned(ids))[u]
  {
    if ids != [] {
      var g, rest := ids[0], ids[1..];
      MembershipsAreSums(groups, rest, u);
      assert ids == [g] + rest && Assigned(ids) == Assigned(rest) + {g};
      SumTakes(MembersOf(groups), Assigned(ids), g);
      assert Assigned(ids) - {g} == Assigned(rest) - {g};
      if g !in rest {
        assert Assigned(rest) - {g} == Assigned(rest);
      } else {
        assert Assigned(ids) == Assigned(rest);
      }
    }
  }

  /** A user has a membership exactly if some listed group that exists has a member with that email. */
  lemma {:induction false} MembershipsAreEmails(groups: Groups, ids: seq<Id>, u: string)
    ensures Memberships(groups, ids, u) > 0 <==> exists g :: g in ids && g in groups && u in Emails(groups[g])
  {
    if ids != [] {
      MembershipsAreEmails(groups, ids[1..], u);
      assert forall g :: g in ids <==> g == ids[0] || g in ids[1..];
      if ids[0] in groups {
        CountIn(Emails(groups[ids[0]]), u);
      }
    }
  }

  /** `get_dataset_roles` answers for a record with its role and exactly the groups assigned to it that exist;
      every registered user the record names is a member of one of them or is listed individually, and nobody
      else is. */
  lemma EveryoneIsListed(s: Access, a: Id)
    requires a in s.auths
    ensures var auth, answer := s.auths[a], ListedFor(s, s.auths[a]);
            && answer.role == auth.role
            && (forall g :: g in answer.groups <==> g in auth.groupIds && g in s.groups)
            && (forall u :: u in answer.individuals ==> u in s.users && u in auth.userIds)
            && (forall u :: u in s.users && u in auth.userIds ==>
                  u in answer.individuals || exists g :: g in answer.groups && exists m :: m in s.groups[g] && m.email == u)
  {
    var auth, answer := s.auths[a], ListedFor(s, s.auths[a]);
    forall u | u in s.users && u in auth.userIds && u !in answer.individuals
      ensures exists g :: g in answer.groups && exists m :: m in s.groups[g] && m.email == u
    {
      MembershipsAreEmails(s.groups, auth.groupIds, u);
      var g :| g in auth.groupIds && g in s.groups && u in Emails(s.groups[g]);
      EmailsAreMembers(s.groups[g], u);
      assert g in answer.groups;
    }
  }

  // ----- The users of a dataset -----

  /** The index names a user exactly if some record of the dataset does. */
  lemma IndexedIffNamed(auths: Auths, d: Id, u: string)
    ensures u in AllUsers(auths, d) <==> exists a :: Names(auths, a, d, u)
  {
    InSumIff(UsersOf(auths), RecordsOf(auths, d), u);
    if exists a :: Names(auths, a, d, u) {
      var a :| Names(auths, a, d, u);
      assert a in RecordsOf(auths, d) && u in UsersOf(auths)(a);
    }
    if a :| a in RecordsOf(auths, d) && u in UsersOf(auths)(a) {
      assert Names(auths, a, d, u);
    }
  }

  lemma {:induction false} InSumIff(f: Id -> multiset<string>, ids: set<Id>, u: string)
    ensures u in Sum(f, ids) <==> exists a :: a in ids && u in f(a)
  {
    if ids != {} {
      var b :| b in ids;
      SumTakes(f, ids, b);
      InSumIff(f, ids - {b}, u);
      if a :| a in ids && u in f(a) {
        assert a == b || a in ids - {b};
      }
    }
  }

  /** A new record of the dataset adds its users, as often as it names them. */
  lemma OneMoreRecordIndexed(auths: Auths, a: Id, auth: Authorization, d: Id)
    requires a !in auths
    ensures AllUsers(auths[a := auth], d) ==
            AllUsers(auths, d) + if auth.dataset == d then multiset(auth.userIds) else multiset{}
  {
    var more := auths[a := auth];
    if auth.dataset == d {
      assert RecordsOf(more, d) - {a} == RecordsOf(auths, d);
      SumTakes(UsersOf(more), RecordsOf(more, d), a);
    } else {
      assert RecordsOf(more, d) == RecordsOf(auths, d);
    }
    SumSame(UsersOf(auths), UsersOf(more), RecordsOf(auths, d));
  }

  /** Indexing the files of some datasets anew changes the entries of those files and nothing else. */
  lemma ReindexedIs(s: Access, ds: set<Id>)
    ensures var s' := Reindexed(s, ds);
            && s' == s.(fileIndex := s'.fileIndex)
            && (forall f :: f in s.files && s.files[f] in ds ==>
                  f in s'.fileIndex && s'.fileIndex[f] == AllUsers(s.auths, s.files[f]))
            && (forall f :: !(f in s.files && s.files[f] in ds) ==>
                  (f in s'.fileIndex <==> f in s.fileIndex) && (f in s.fileIndex ==> s'.fileIndex[f] == s.fileIndex[f]))
  {
    hide AllUsers;
  }
}
