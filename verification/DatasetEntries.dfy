/** The search entry of a dataset itself: the role and group routes write it from the one record they
    touched last, where the entry of a file names the users of all records. */
module DatasetEntries {
  import opened Types
  import opened Multisets
  import opened State
  import opened Roles
  import opened RoleSteps
  import opened RoleRuns

  predicate IsRecordOf(auths: Auths, d: Id, a: Id) {
    a in auths && auths[a].dataset == d
  }

  /** An entry written from record `a` names exactly the users of all records of `d`. */
  ghost predicate EntryAgrees(auths: Auths, d: Id, a: Id)
    requires a in auths
  {
    multiset(auths[a].userIds) == AllUsers(auths, d)
  }

  predicate OthersNameNobody(auths: Auths, d: Id, a: Id) {
    forall b :: b in auths && b != a && auths[b].dataset == d ==> auths[b].userIds == []
  }

  lemma EntryAgreesIff(auths: Auths, d: Id, a: Id)
    requires IsRecordOf(auths, d, a)
    ensures EntryAgrees(auths, d, a) <==> OthersNameNobody(auths, d, a)
  {
    var rest := RecordsOf(auths, d) - {a};
    SumTakes(UsersOf(auths), RecordsOf(auths, d), a);
    SumIsEmptyIff(UsersOf(auths), rest);
    var all, one, others := AllUsers(auths, d), multiset(auths[a].userIds), Sum(UsersOf(auths), rest);
    assert all == one + others;
    assert all == one <==> others == multiset{} by {
      if all == one {
        assert |all| == |one| + |others|;
      }
    }
    forall b | b in auths ensures UsersOf(auths)(b) == multiset{} <==> auths[b].userIds == [] {
      assert |multiset(auths[b].userIds)| == |auths[b].userIds|;
    }
  }

  /** The record from which a group grant writes the entry last: the viewer record of the read-only members if
      the group joins a record, the new record otherwise; the one stripped before if nothing is granted. */
  ghost function GroupGrantFrom(s: Access, d: Id, g: Id, pick: Option<Id>, into: Option<Id>): Option<Id>
    requires g in s.groups && Answers(pick, GrantedTo(s.auths, d, g)) && (into.Some? ==> into.value in s.auths)
  {
    var s1 := RemoveGroupRole(s, d, g, pick).0;
    var readers, writers := Readers(s.groups[g]), Writers(s.groups[g]);
    if into.Some? then
      if g in s1.auths[into.value].groupIds then pick else if readers == [] then into else Some(s1.next)
    else if writers != [] then Some(ViewerAdded(s1, d, g).next)
    else if readers != [] then Some(s1.next)
    else pick
  }

  /** The last write of the entry of `d` that the route makes may be from record `a`. */
  ghost predicate WritesFrom(s: Access, op: RoleOp, d: Id, a: Id)
    requires Possible(s, op)
  {
    match op
    case OpSetGroup(e, g, role, pick, into) =>
      e == d && Visible(s, d) && g in s.groups && GroupGrantFrom(s, d, g, pick, into) == Some(a)
    case OpRemoveGroup(e, g, pick) => e == d && Visible(s, d) && g in s.groups && pick == Some(a)
    case OpSetUser(e, u, role, pick, into) =>
      e == d && Visible(s, d) && u in s.users &&
      (if Refused(s, u, role) then pick else SetUserRole(s, d, u, role, pick, into).1.value) == Some(a)
    case OpRemoveUser(e, u, pick) => e == d && Visible(s, d) && u in s.users && pick == Some(a)
    case OpAddMember(g, u, _) =>
      u in s.users && g in s.groups && u !in Emails(s.groups[g]) && d in s.working && Grants(s.auths, a, d, g)
    case OpRemoveMember(g, u) =>
      g in s.groups && LastWith(s.groups[g], u).Some? && d in s.working && Grants(s.auths, a, d, g)
    case _ => false
  }

  /** Whatever record a route writes the entry from, the entry agrees with the records exactly when every
      other record of the dataset names nobody. */
  lemma RouteEntryAgreesIff(s: Access, op: RoleOp, d: Id, a: Id)
    requires Possible(s, op) && WritesFrom(s, op, d, a)
    ensures var auths := After(s, op).auths;
            && IsRecordOf(auths, d, a)
            && (EntryAgrees(auths, d, a) <==> OthersNameNobody(auths, d, a))
  {
    WrittenRecord(s, op, d, a);
    EntryAgreesIff(After(s, op).auths, d, a);
  }

  lemma WrittenRecord(s: Access, op: RoleOp, d: Id, a: Id)
    requires Possible(s, op) && WritesFrom(s, op, d, a)
    ensures IsRecordOf(After(s, op).auths, d, a)
  {
    hide IsRecordOf, Affected, Reindexed;
    match op
    case OpSetGroup(_, g, role, pick, into) => GroupGrantRecord(s, d, g, role, pick, into, a);
    case OpRemoveGroup(_, g, pick) => GroupRemovalRecord(s, d, g, a, a);
    case OpSetUser(_, u, role, pick, into) => UserGrantRecord(s, d, u, role, pick, into, a);
    case OpRemoveUser(_, u, pick) => UserRemovalRecord(s, d, u, a, a);
    case OpAddMember(g, u, _) => MemberRecord(s, g, u, d, a);
    case OpRemoveMember(g, u) => MemberRecord(s, g, u, d, a);
  }

  lemma GroupRemovalRecord(s: Access, d: Id, g: Id, pick: Id, a: Id)
    requires Answers(Some(pick), GrantedTo(s.auths, d, g)) && IsRecordOf(s.auths, d, a)
    ensures IsRecordOf(RemoveGroupRole(s, d, g, Some(pick)).0.auths, d, a)
  {
  }

  lemma UserRemovalRecord(s: Access, d: Id, u: string, pick: Id, a: Id)
    requires Answers(Some(pick), Naming(s.auths, d, u)) && IsRecordOf(s.auths, d, a)
    ensures IsRecordOf(RemoveUserRole(s, d, u, Some(pick)).0.auths, d, a)
  {
  }

  lemma GroupGrantRecord(s: Access, d: Id, g: Id, role: Role, pick: Option<Id>, into: Option<Id>, a: Id)
    requires Possible(s, OpSetGroup(d, g, role, pick, into)) && WritesFrom(s, OpSetGroup(d, g, role, pick, into), d, a)
    ensures IsRecordOf(SetGroupRole(s, d, g, role, pick, into).0.auths, d, a)
  {
  }

  lemma UserGrantRecord(s: Access, d: Id, u: string, role: Role, pick: Option<Id>, into: Option<Id>, a: Id)
    requires Possible(s, OpSetUser(d, u, role, pick, into)) && WritesFrom(s, OpSetUser(d, u, role, pick, into), d, a)
    ensures IsRecordOf(SetUserRole(s, d, u, role, pick, into).0.auths, d, a)
  {
    if pick.Some? {
      UserRemovalRecord(s, d, u, pick.value, pick.value);
    }
    hide RemoveUserRole, GrantUser, IsRecordOf;
    UserJoinRecord(RemoveUserRole(s, d, u, pick).0, d, u, role, into, a);
  }

  lemma UserJoinRecord(s: Access, d: Id, u: string, role: Role, into: Option<Id>, a: Id)
    requires u in s.users && Answers(into, WithRole(s.auths, d, role))
    requires if Refused(s, u, role) then IsRecordOf(s.auths, d, a) else GrantUser(s, d, u, role, into).1.value == Some(a)
    ensures IsRecordOf(GrantUser(s, d, u, role, into).0.auths, d, a)
  {
  }

  lemma MemberRecord(s: Access, g: Id, u: string, d: Id, a: Id)
    requires IsRecordOf(s.auths, d, a)
    ensures forall editor :: IsRecordOf(AddMember(s, g, u, editor).0.auths, d, a)
    ensures IsRecordOf(RemoveMember(s, g, u).0.auths, d, a)
  {
  }

  /** The entry of a new dataset names its creator, and no record does. */
  lemma CreationEntryDisagrees(s: Access, d: Id, a: Id, creator: string)
    requires Unused(s, d)
    ensures AllUsers(DatasetOpened(s, d, a).auths, d) != multiset{creator}
  {
    var auths := DatasetOpened(s, d, a).auths;
    forall b | b in RecordsOf(auths, d) ensures UsersOf(auths)(b) == multiset{} {
    }
    SumIsEmptyIff(UsersOf(auths), RecordsOf(auths, d));
    assert creator !in AllUsers(auths, d);
  }
}
