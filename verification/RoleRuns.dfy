/** Runs of role and group routes, and of the routes that add and remove datasets, releases and files. Each
    label carries the answers its lookups happened to get and the ids handed out. */
module RoleRuns {
  import opened Types
  import opened Multisets
  import opened State
  import opened Roles
  import opened RoleSteps

  datatype RoleOp =
    | OpSetGroup(d: Id, g: Id, role: Role, pick: Option<Id>, into: Option<Id>)
    | OpRemoveGroup(d: Id, g: Id, pick: Option<Id>)
    | OpSetUser(d: Id, u: string, role: Role, pick: Option<Id>, into: Option<Id>)
    | OpRemoveUser(d: Id, u: string, pick: Option<Id>)
    | OpAddMember(g: Id, u: string, editor: bool)
    | OpRemoveMember(g: Id, u: string)
    | OpPutFile(f: Id, d: Id)
    | OpTakeFiles(fs: set<Id>)
    | OpOpenDataset(d: Id, a: Id)
    | OpOpenRelease(fd: Id, owner: Option<Id>)
    | OpCloseRecords(ds: set<Id>)
    | OpCloseDataset(d: Id, releases: set<Id>)

  /** The lookups can answer what the label says. */
  ghost predicate Possible(s: Access, op: RoleOp) {
    match op
    case OpSetGroup(d, g, role, pick, into) =>
      Answers(pick, GrantedTo(s.auths, d, g)) &&
      Answers(into, WithRole(RemoveGroupRole(s, d, g, pick).0.auths, d, role))
    case OpRemoveGroup(d, g, pick) => Answers(pick, GrantedTo(s.auths, d, g))
    case OpSetUser(d, u, role, pick, into) =>
      Answers(pick, Naming(s.auths, d, u)) &&
      Answers(into, WithRole(RemoveUserRole(s, d, u, pick).0.auths, d, role))
    case OpRemoveUser(d, u, pick) => Answers(pick, Naming(s.auths, d, u))
    case OpPutFile(f, d) => d in s.working
    case OpOpenDataset(d, a) => s.next <= a && Unused(s, d)
    case OpOpenRelease(fd, a) => (a.Some? ==> s.next <= a.value) && Unused(s, fd)
    case OpCloseRecords(ds) => ds !! s.working
    case OpCloseDataset(d, releases) => releases !! s.working
    case _ => true
  }

  /** No dataset, release or record has the id. */
  ghost predicate Unused(s: Access, d: Id) {
    d !in s.working && d !in s.frozen && forall a :: a in s.auths ==> s.auths[a].dataset != d
  }

  ghost function After(s: Access, op: RoleOp): Access
    requires Possible(s, op)
  {
    match op
    case OpSetGroup(d, g, role, pick, into) => SetGroupRole(s, d, g, role, pick, into).0
    case OpRemoveGroup(d, g, pick) => RemoveGroupRole(s, d, g, pick).0
    case OpSetUser(d, u, role, pick, into) => SetUserRole(s, d, u, role, pick, into).0
    case OpRemoveUser(d, u, pick) => RemoveUserRole(s, d, u, pick).0
    case OpAddMember(g, u, editor) => AddMember(s, g, u, editor).0
    case OpRemoveMember(g, u) => RemoveMember(s, g, u).0
    case OpPutFile(f, d) => PutFile(s, f, d)
    case OpTakeFiles(fs) => FilesTaken(s, fs)
    case OpOpenDataset(d, a) => DatasetOpened(s, d, a)
    case OpOpenRelease(fd, a) => ReleaseOpened(s, fd, a)
    case OpCloseRecords(ds) => RecordsClosed(s, ds)
    case OpCloseDataset(d, releases) => DatasetClosed(s, d, releases)
  }

  /** The exact conditions of module RoleSteps. */
  ghost predicate Sound(s: Access, op: RoleOp) {
    match op
    case OpSetGroup(d, g, _, _, into) => Visible(s, d) && g in s.groups ==> Uniform(s, g, into)
    case OpSetUser(d, u, role, pick, into) =>
      pick.Some? && pick.value in s.auths && Visible(s, d) && u in s.users ==>
        Direct(s.groups, s.auths[pick.value], u) > 0 ||
        (!Refused(s, u, role) && into == pick && Count(s.auths[pick.value].userIds, u) == 1)
    case OpRemoveUser(d, u, pick) =>
      pick.Some? && pick.value in s.auths && Visible(s, d) && u in s.users ==>
        Direct(s.groups, s.auths[pick.value], u) > 0
    case _ => true
  }

  predicate GroupsOnly(op: RoleOp) {
    !op.OpSetUser? && !op.OpRemoveUser? && !Closes(op)
  }

  /** Routes that remove records. */
  predicate Closes(op: RoleOp) {
    op.OpCloseRecords? || op.OpCloseDataset?
  }

  ghost predicate RoleInv(s: Access) {
    && Books(s) && IndexAgrees(s) && Fresh(s)
  }

  ghost predicate Fresh(s: Access) {
    (forall a :: a in s.auths ==> a < s.next) && forall f :: f in s.files ==> s.files[f] in s.working
  }

  lemma BooksKept(s: Access, op: RoleOp)
    requires Books(s) && Fresh(s) && Possible(s, op) && Sound(s, op)
    ensures Books(After(s, op))
    ensures GroupsOnly(op) ==> DirectUntouched(s, After(s, op))
  {
    if GroupsOnly(op) {
      GroupStepKeepsBooks(s, op);
      hide After, Fresh, Possible, Sound;
    } else {
      hide Books, Fresh;
      match op {
        case OpSetUser(d, u, role, pick, into) => SetUserKeepsBooks(s, d, u, role, pick, into);
        case OpRemoveUser(d, u, pick) => RemoveUserKeepsBooks(s, d, u, pick);
        case OpCloseRecords(ds) => FewerRecordsKeepBooks(s, After(s, op));
        case OpCloseDataset(d, releases) => FewerRecordsKeepBooks(s, After(s, op));
      }
    }
  }

  lemma GroupStepKeepsBooks(s: Access, op: RoleOp)
    requires Books(s) && Fresh(s) && Possible(s, op) && Sound(s, op) && GroupsOnly(op)
    ensures DirectUntouched(s, After(s, op))
  {
    assert forall a :: a in s.auths ==> a < s.next;
    hide Books, Fresh, DirectUntouched;
    match op
    case OpSetGroup(d, g, role, pick, into) => SetGroupKeepsBooks(s, d, g, role, pick, into);
    case OpRemoveGroup(d, g, pick) => RemoveGroupKeepsBooks(s, d, g, pick);
    case OpAddMember(g, u, editor) => MembersKeepBooks(s, g, u, editor);
    case OpRemoveMember(g, u) => MembersKeepBooks(s, g, u, false);
    case OpPutFile(f, d) => NothingTouched(s, PutFile(s, f, d));
    case OpTakeFiles(fs) => NothingTouched(s, FilesTaken(s, fs));
    case OpOpenDataset(d, a) => OwnerRecordKeepsBooks(s, After(s, op), d, a);
    case OpOpenRelease(fd, None) => NothingTouched(s, After(s, op));
    case OpOpenRelease(fd, Some(a)) => OwnerRecordKeepsBooks(s, After(s, op), fd, a);
  }

  /** A new record that names nobody. */
  lemma OwnerRecordKeepsBooks(s: Access, s': Access, d: Id, a: Id)
    requires Books(s) && a !in s.auths && s'.groups == s.groups
    requires s'.auths == s.auths[a := Authorization(d, Owner, [], [])]
    ensures DirectUntouched(s, s')
  {
    NoGroupMore(s, s', a, Authorization(d, Owner, [], []));
  }

  lemma FewerRecordsKeepBooks(s: Access, s': Access)
    requires Books(s) && s'.groups == s.groups && forall a :: a in s'.auths ==> a in s.auths && s'.auths[a] == s.auths[a]
    ensures Books(s')
  {
    forall a, b, d, g | Grants(s'.auths, a, d, g) && Grants(s'.auths, b, d, g) ensures a == b {
      assert Grants(s.auths, a, d, g) && Grants(s.auths, b, d, g);
    }
  }

  lemma SetGroupKeepsBooks(s: Access, d: Id, g: Id, role: Role, pick: Option<Id>, into: Option<Id>)
    requires Books(s) && Fresh(s)
    requires Possible(s, OpSetGroup(d, g, role, pick, into)) && Sound(s, OpSetGroup(d, g, role, pick, into))
    ensures DirectUntouched(s, SetGroupRole(s, d, g, role, pick, into).0)
  {
    if Visible(s, d) && g in s.groups {
      var s1 := RemoveGroupRole(s, d, g, pick).0;
      RemoveGroupRoleKeeps(s, d, g, pick);
      assert s1.groups == s.groups && s1.next == s.next && s1.auths.Keys == s.auths.Keys;
      GrantGroupKeepsIff(s1, d, g, role, into);
      hide Books, SameDirect, HoldsNone;
      DirectKeptTwice(s, s1, SetGroupRole(s, d, g, role, pick, into).0);
    } else {
      NothingTouched(s, s);
    }
  }

  lemma RemoveGroupKeepsBooks(s: Access, d: Id, g: Id, pick: Option<Id>)
    requires Books(s) && Answers(pick, GrantedTo(s.auths, d, g))
    ensures DirectUntouched(s, RemoveGroupRole(s, d, g, pick).0)
  {
    RemoveGroupRoleKeeps(s, d, g, pick);
    hide Books, DirectKept;
  }

  lemma MembersKeepBooks(s: Access, g: Id, u: string, editor: bool)
    requires Books(s)
    ensures DirectUntouched(s, AddMember(s, g, u, editor).0) && DirectUntouched(s, RemoveMember(s, g, u).0)
  {
    AddMemberKeeps(s, g, u, editor);
    RemoveMemberKeeps(s, g, u);
    hide Books, DirectKept;
  }

  lemma RemoveUserKeepsBooks(s: Access, d: Id, u: string, pick: Option<Id>)
    requires Books(s) && Possible(s, OpRemoveUser(d, u, pick)) && Sound(s, OpRemoveUser(d, u, pick))
    ensures Books(RemoveUserRole(s, d, u, pick).0)
  {
    if Visible(s, d) && u in s.users && pick.Some? {
      RemoveUserRoleKeepsIff(s, d, u, pick.value);
    }
  }

  lemma SetUserKeepsBooks(s: Access, d: Id, u: string, role: Role, pick: Option<Id>, into: Option<Id>)
    requires Books(s) && Fresh(s)
    requires Possible(s, OpSetUser(d, u, role, pick, into)) && Sound(s, OpSetUser(d, u, role, pick, into))
    ensures Books(SetUserRole(s, d, u, role, pick, into).0)
  {
    if Visible(s, d) && u in s.users {
      SetUserRoleKeepsIff(s, d, u, role, pick, into);
    }
  }

  lemma DirectKeptTwice(s: Access, s1: Access, s2: Access)
    requires DirectKept(s, s1) && DirectKept(s1, s2)
    ensures DirectKept(s, s2)
  {
    forall a | a in s.auths ensures a in s2.auths && SameDirect(s.groups, s.auths[a], s2.groups, s2.auths[a]) {
      assert SameDirect(s.groups, s.auths[a], s1.groups, s1.auths[a]);
      assert SameDirect(s1.groups, s1.auths[a], s2.groups, s2.auths[a]);
    }
  }

  /** The file index follows every route, whether or not the bookkeeping is sound. */
  lemma IndexFollows(s: Access, op: RoleOp)
    requires IndexAgrees(s) && Fresh(s) && Possible(s, op)
    ensures IndexAgrees(After(s, op)) && Fresh(After(s, op))
  {
    hide IndexAgrees, Fresh;
    FreshKept(s, op);
    match op
    case OpSetGroup(d, g, role, pick, into) => SetGroupIndexes(s, d, g, role, pick, into);
    case OpRemoveGroup(d, g, pick) => RemoveGroupRoleIndexes(s, d, g, pick);
    case OpSetUser(d, u, role, pick, into) => SetUserIndexes(s, d, u, role, pick, into);
    case OpRemoveUser(d, u, pick) => RemoveUserRoleIndexes(s, d, u, pick);
    case OpAddMember(g, u, editor) => AddMemberIndexes(s, g, u, editor);
    case OpRemoveMember(g, u) => RemoveMemberIndexes(s, g, u);
    case OpPutFile(f, d) => PutFileIndexes(s, f, d);
    case _ => ComingAndGoingIndexes(s, op);
  }

  /** Records of other datasets, and files less. */
  lemma ComingAndGoingIndexes(s: Access, op: RoleOp)
    requires IndexAgrees(s) && Fresh(s) && Possible(s, op)
    requires op.OpTakeFiles? || op.OpOpenDataset? || op.OpOpenRelease? || Closes(op)
    ensures IndexAgrees(After(s, op))
  {
    var s' := After(s, op);
    forall f | f in s'.files ensures Indexed(s', f) {
      ElsewhereSame(s, op, f);
      assert Indexed(s, f);
    }
  }

  lemma ElsewhereSame(s: Access, op: RoleOp, f: Id)
    requires Fresh(s) && Possible(s, op) && f in After(s, op).files
    requires op.OpTakeFiles? || op.OpOpenDataset? || op.OpOpenRelease? || Closes(op)
    ensures var s' := After(s, op);
            && f in s.files && s'.files[f] == s.files[f]
            && (f in s.fileIndex ==> f in s'.fileIndex && s'.fileIndex[f] == s.fileIndex[f])
            && AllUsers(s'.auths, s.files[f]) == AllUsers(s.auths, s.files[f])
  {
    hide AllUsers;
    assert s.files[f] in s.working;
    OthersElsewhere(s, op, s.files[f]);
    var auths := After(s, op).auths;
    AllUsersSame(s.auths, auths, s.files[f]);
  }

  ghost predicate SameRecordsOf(auths: Auths, auths': Auths, d: Id) {
    && (forall a :: a in auths && auths[a].dataset == d ==> a in auths' && auths'[a] == auths[a])
    && (forall a :: a in auths' && auths'[a].dataset == d ==> a in auths && auths[a] == auths'[a])
  }

  lemma OthersElsewhere(s: Access, op: RoleOp, d: Id)
    requires Fresh(s) && Possible(s, op) && d in s.working && (op.OpCloseDataset? ==> d != op.d)
    requires op.OpTakeFiles? || op.OpOpenDataset? || op.OpOpenRelease? || Closes(op)
    ensures SameRecordsOf(s.auths, After(s, op).auths, d)
  {
    assert forall a :: a in s.auths ==> a < s.next;
    hide Fresh, RecordsClosed;
    match op
    case OpTakeFiles(_) =>
    case OpOpenDataset(d', a) =>
    case OpOpenRelease(fd, owner) =>
    case OpCloseRecords(ds) => ClosedElsewhere(s, ds, d);
    case OpCloseDataset(d', releases) => ClosedElsewhere(s, releases + {d'}, d);
  }

  lemma ClosedElsewhere(s: Access, ds: set<Id>, d: Id)
    requires d !in ds
    ensures SameRecordsOf(s.auths, RecordsClosed(s, ds).auths, d)
  {
  }

  lemma FreshKept(s: Access, op: RoleOp)
    requires Fresh(s) && Possible(s, op)
    ensures Fresh(After(s, op))
  {
    match op
    case OpSetGroup(d, g, role, pick, into) =>
      RemoveGroupFresh(s, d, g, pick);
      if Visible(s, d) && g in s.groups {
        GrantGroupFresh(RemoveGroupRole(s, d, g, pick).0, d, g, role, into);
      }
    case OpRemoveGroup(d, g, pick) => RemoveGroupFresh(s, d, g, pick);
    case OpSetUser(d, u, role, pick, into) =>
      RemoveUserFresh(s, d, u, pick);
      if Visible(s, d) && u in s.users {
        GrantUserFresh(RemoveUserRole(s, d, u, pick).0, d, u, role, into);
      }
    case OpRemoveUser(d, u, pick) => RemoveUserFresh(s, d, u, pick);
    case OpAddMember(g, u, editor) =>
    case OpRemoveMember(g, u) =>
    case OpPutFile(f, d) =>
    case _ =>
  }

  lemma RemoveGroupFresh(s: Access, d: Id, g: Id, pick: Option<Id>)
    requires Fresh(s) && Answers(pick, GrantedTo(s.auths, d, g))
    ensures var s' := RemoveGroupRole(s, d, g, pick).0;
            Fresh(s') && s'.groups == s.groups && s'.users == s.users
  {
  }

  lemma GrantGroupFresh(s: Access, d: Id, g: Id, role: Role, into: Option<Id>)
    requires Fresh(s) && g in s.groups && Answers(into, WithRole(s.auths, d, role))
    ensures Fresh(GrantGroup(s, d, g, role, into).0)
  {
    hide Entries;
  }

  lemma RemoveUserFresh(s: Access, d: Id, u: string, pick: Option<Id>)
    requires Fresh(s) && Answers(pick, Naming(s.auths, d, u))
    ensures var s' := RemoveUserRole(s, d, u, pick).0;
            Fresh(s') && s'.groups == s.groups && s'.users == s.users
  {
  }

  lemma GrantUserFresh(s: Access, d: Id, u: string, role: Role, into: Option<Id>)
    requires Fresh(s) && u in s.users && Answers(into, WithRole(s.auths, d, role))
    ensures Fresh(GrantUser(s, d, u, role, into).0)
  {
  }

  lemma PutFileIndexes(s: Access, f: Id, d: Id)
    requires IndexAgrees(s)
    ensures IndexAgrees(PutFile(s, f, d))
  {
    forall x | x in PutFile(s, f, d).files ensures Indexed(PutFile(s, f, d), x) {
      assert x != f ==> Indexed(s, x);
    }
  }

  lemma SetGroupIndexes(s: Access, d: Id, g: Id, role: Role, pick: Option<Id>, into: Option<Id>)
    requires IndexAgrees(s) && Fresh(s) && Possible(s, OpSetGroup(d, g, role, pick, into))
    ensures IndexAgrees(SetGroupRole(s, d, g, role, pick, into).0)
  {
    RemoveGroupRoleIndexes(s, d, g, pick);
    if Visible(s, d) && g in s.groups {
      var s1 := RemoveGroupRole(s, d, g, pick).0;
      assert s1.next == s.next && s1.groups == s.groups;
      GrantGroupIndexes(s1, d, g, role, into);
    }
  }

  lemma SetUserIndexes(s: Access, d: Id, u: string, role: Role, pick: Option<Id>, into: Option<Id>)
    requires IndexAgrees(s) && Fresh(s) && Possible(s, OpSetUser(d, u, role, pick, into))
    ensures IndexAgrees(SetUserRole(s, d, u, role, pick, into).0)
  {
    RemoveUserRoleIndexes(s, d, u, pick);
    if Visible(s, d) && u in s.users {
      var s1 := RemoveUserRole(s, d, u, pick).0;
      assert s1.next == s.next && s1.users == s.users;
      GrantUserIndexes(s1, d, u, role, into);
    }
  }

  ghost predicate RoleRun(ss: seq<Access>, ops: seq<RoleOp>) {
    && |ss| == |ops| + 1
    && forall i :: 0 <= i < |ops| ==> Possible(ss[i], ops[i]) && ss[i + 1] == After(ss[i], ops[i])
  }

  /** Over every run the index names exactly the users the records of a file's dataset name. */
  lemma {:induction false} RunKeepsIndex(ss: seq<Access>, ops: seq<RoleOp>, i: nat)
    requires RoleRun(ss, ops) && IndexAgrees(ss[0]) && Fresh(ss[0]) && i <= |ops|
    ensures IndexAgrees(ss[i]) && Fresh(ss[i])
  {
    if i > 0 {
      RunKeepsIndex(ss, ops, i - 1);
      IndexFollows(ss[i - 1], ops[i - 1]);
    }
  }

  // ----- Direct grants -----

  /** How a route changes the ledger: a removal strikes, a grant enters, group routes open records. */
  ghost function LedgerAfter(s: Access, ledger: Ledger, op: RoleOp): Ledger
    requires Possible(s, op) && ledger.Keys == s.auths.Keys
  {
    match op
    case OpSetUser(d, u, role, pick, into) =>
      var struck := Stricken(s, ledger, d, u, pick);
      var r := SetUserRole(s, d, u, role, pick, into).1;
      if r.Ok? && r.value.Some? then Entered(struck, r.value.value, u) else struck
    case OpRemoveUser(d, u, pick) => Stricken(s, ledger, d, u, pick)
    case _ => Opened(ledger, After(s, op).auths)
  }

  function Stricken(s: Access, ledger: Ledger, d: Id, u: string, pick: Option<Id>): Ledger
    requires Answers(pick, Naming(s.auths, d, u)) && ledger.Keys == s.auths.Keys
  {
    if Visible(s, d) && u in s.users && pick.Some? then Struck(ledger, pick.value, u) else ledger
  }

  lemma BalancedDirect(s: Access, ledger: Ledger)
    requires ledger.Keys == s.auths.Keys
    ensures Balanced(s, ledger) <==>
            forall a, u :: a in s.auths ==> Direct(s.groups, s.auths[a], u) == ledger[a][u]
  {
    if forall a, u :: a in s.auths ==> Direct(s.groups, s.auths[a], u) == ledger[a][u] {
      forall a | a in s.auths ensures BalancedAt(s.groups, s.auths[a], ledger[a]) {
        forall u ensures Count(s.auths[a].userIds, u) ==
                         ledger[a][u] + Memberships(s.groups, s.auths[a].groupIds, u) {
          assert Direct(s.groups, s.auths[a], u) == ledger[a][u];
        }
      }
    }
    if Balanced(s, ledger) {
      forall a, u | a in s.auths ensures Direct(s.groups, s.auths[a], u) == ledger[a][u] {
        assert BalancedAt(s.groups, s.auths[a], ledger[a]);
      }
    }
  }

  lemma GroupStepBalances(s: Access, ledger: Ledger, s': Access)
    requires Balanced(s, ledger) && DirectKept(s, s') && NewHoldNone(s, s')
    ensures Balanced(s', Opened(ledger, s'.auths))
  {
    BalancedDirect(s, ledger);
    forall a, u | a in s'.auths ensures Direct(s'.groups, s'.auths[a], u) == Opened(ledger, s'.auths)[a][u] {
      if a in s.auths {
        assert SameDirect(s.groups, s.auths[a], s'.groups, s'.auths[a]);
      } else {
        assert HoldsNone(s'.groups, s'.auths[a]);
      }
    }
    BalancedDirect(s', Opened(ledger, s'.auths));
  }

  lemma RemovalBalances(s: Access, ledger: Ledger, d: Id, u: string, a: Id)
    requires Books(s) && Balanced(s, ledger) && Visible(s, d) && u in s.users && a in Naming(s.auths, d, u)
    requires Direct(s.groups, s.auths[a], u) > 0
    ensures Balanced(RemoveUserRole(s, d, u, Some(a)).0, Struck(ledger, a, u))
  {
    var s' := RemoveUserRole(s, d, u, Some(a)).0;
    var struck := Struck(ledger, a, u);
    BalancedDirect(s, ledger);
    RemoveUserRoleKeepsIff(s, d, u, a);
    forall b, v | b in s'.auths ensures Direct(s'.groups, s'.auths[b], v) == struck[b][v] {
      assert Direct(s.groups, s.auths[b], v) == ledger[b][v];
      if b == a {
        OneLess(ledger[a], u, v);
      }
    }
    BalancedDirect(s', struck);
  }

  lemma OneLess(granted: multiset<string>, u: string, v: string)
    requires granted[u] > 0
    ensures (granted - multiset{u})[v] == granted[v] - if v == u then 1 else 0
  {
  }

  lemma GrantBalances(s: Access, ledger: Ledger, s': Access, a: Id, u: string)
    requires Balanced(s, ledger) && a in s'.auths && s'.auths.Keys == s.auths.Keys + {a}
    requires s'.groups == s.groups && GrantsOne(s, s', a, u)
    ensures Balanced(s', Entered(ledger, a, u))
  {
    assert ledger.Keys == s.auths.Keys;
    hide Balanced, Direct;
    BalancedDirect(s, ledger);
    BalancedDirect(s', Entered(ledger, a, u));
  }

  lemma SetUserBalances(s: Access, ledger: Ledger, d: Id, u: string, role: Role, pick: Option<Id>, into: Option<Id>)
    requires Books(s) && Fresh(s) && Balanced(s, ledger)
    requires Possible(s, OpSetUser(d, u, role, pick, into)) && Sound(s, OpSetUser(d, u, role, pick, into))
    requires Visible(s, d) && u in s.users
    ensures Balanced(SetUserRole(s, d, u, role, pick, into).0, LedgerAfter(s, ledger, OpSetUser(d, u, role, pick, into)))
  {
    var s1 := RemoveUserRole(s, d, u, pick).0;
    if pick.None? {
      GrantStepBalances(s, ledger, d, u, role, into);
    } else if Direct(s.groups, s.auths[pick.value], u) > 0 {
      RemovalBalances(s, ledger, d, u, pick.value);
      RemoveUserRoleKeepsIff(s, d, u, pick.value);
      GrantStepBalances(s1, Struck(ledger, pick.value, u), d, u, role, into);
    } else {
      RestoredBalances(s, ledger, d, u, role, pick.value);
    }
  }

  lemma GrantStepBalances(s: Access, ledger: Ledger, d: Id, u: string, role: Role, into: Option<Id>)
    requires Books(s) && Balanced(s, ledger) && u in s.users && Answers(into, WithRole(s.auths, d, role))
    requires s.next !in s.auths
    ensures var (s', r) := GrantUser(s, d, u, role, into);
            && (r.Ok? ==> r.value.Some?)
            && Balanced(s', if r.Ok? then Entered(ledger, r.value.value, u) else ledger)
  {
    var (s', r) := GrantUser(s, d, u, role, into);
    GrantUserGrantsOne(s, d, u, role, into);
    hide Books, Balanced, GrantUser, GrantsOne;
    if r.Ok? {
      GrantBalances(s, ledger, s', r.value.value, u);
    }
  }

  /** The removal found nothing to strike and the grant made up for it. */
  lemma RestoredBalances(s: Access, ledger: Ledger, d: Id, u: string, role: Role, a: Id)
    requires Books(s) && Balanced(s, ledger) && Visible(s, d) && u in s.users && !Refused(s, u, role)
    requires a in Naming(s.auths, d, u) && Direct(s.groups, s.auths[a], u) <= 0 && Count(s.auths[a].userIds, u) == 1
    requires a in WithRole(RemoveUserRole(s, d, u, Some(a)).0.auths, d, role)
    ensures var (s', r) := GrantUser(RemoveUserRole(s, d, u, Some(a)).0, d, u, role, Some(a));
            r == Ok(Some(a)) && Balanced(s', Entered(Struck(ledger, a, u), a, u))
  {
    var s1 := RemoveUserRole(s, d, u, Some(a)).0;
    assert Counted(s.groups, s.auths[a]) && Direct(s.groups, s.auths[a], u) == 0;
    BalancedDirect(s, ledger);
    NothingToStrike(ledger, a, u);
    MembershipRestored(s, s1, d, u, role, a);
    hide Balanced, Books, GrantUser, RemoveUserRole, GrantsOne;
    GrantBalances(s, ledger, GrantUser(s1, d, u, role, Some(a)).0, a, u);
  }

  lemma NothingToStrike(ledger: Ledger, a: Id, u: string)
    requires a in ledger && ledger[a][u] == 0
    ensures Struck(ledger, a, u) == ledger
  {
    assert ledger[a] - multiset{u} == ledger[a];
  }

  lemma ClosingBalances(s: Access, ledger: Ledger, s': Access)
    requires Balanced(s, ledger) && s'.groups == s.groups
    requires forall a :: a in s'.auths ==> a in s.auths && s'.auths[a] == s.auths[a]
    ensures Balanced(s', Opened(ledger, s'.auths))
  {
  }

  lemma StepBalances(s: Access, ledger: Ledger, op: RoleOp)
    requires Books(s) && Fresh(s) && Balanced(s, ledger) && Possible(s, op) && Sound(s, op)
    ensures Balanced(After(s, op), LedgerAfter(s, ledger, op))
  {
    if GroupsOnly(op) {
      BooksKept(s, op);
      GroupStepBalances(s, ledger, After(s, op));
    } else if op.OpSetUser? {
      if Visible(s, op.d) && op.u in s.users {
        SetUserBalances(s, ledger, op.d, op.u, op.role, op.pick, op.into);
      }
    } else if Closes(op) {
      ClosingBalances(s, ledger, After(s, op));
    } else if Visible(s, op.d) && op.u in s.users && op.pick.Some? {
      RemovalBalances(s, ledger, op.d, op.u, op.pick.value);
    }
  }

  /** A run with its ledger. */
  ghost predicate LedgerRun(ss: seq<Access>, ledgers: seq<Ledger>, ops: seq<RoleOp>) {
    && RoleRun(ss, ops) && |ledgers| == |ss|
    && forall i :: 0 <= i < |ops| ==>
         ledgers[i].Keys == ss[i].auths.Keys && ledgers[i + 1] == LedgerAfter(ss[i], ledgers[i], ops[i])
  }

  ghost predicate SoundRun(ss: seq<Access>, ops: seq<RoleOp>) {
    RoleRun(ss, ops) && forall j :: 0 <= j < |ops| ==> Sound(ss[j], ops[j])
  }

  lemma {:induction false} RunKeepsBooks(ss: seq<Access>, ops: seq<RoleOp>, i: nat)
    requires SoundRun(ss, ops) && RoleInv(ss[0]) && i <= |ops|
    ensures RoleInv(ss[i])
  {
    if i > 0 {
      RunKeepsBooks(ss, ops, i - 1);
      BooksKept(ss[i - 1], ops[i - 1]);
      IndexFollows(ss[i - 1], ops[i - 1]);
    }
  }

  /** Over every sound run each email stands in each record once per direct grant, as the ledger has
      them, and once per membership in an assigned group. */
  lemma {:induction false} RunStaysBalanced(ss: seq<Access>, ledgers: seq<Ledger>, ops: seq<RoleOp>, i: nat)
    requires LedgerRun(ss, ledgers, ops) && SoundRun(ss, ops) && RoleInv(ss[0]) && Balanced(ss[0], ledgers[0])
    requires i <= |ops|
    ensures Balanced(ss[i], ledgers[i])
  {
    if i > 0 {
      RunStaysBalanced(ss, ledgers, ops, i - 1);
      RunKeepsBooks(ss, ops, i - 1);
      StepBalances(ss[i - 1], ledgers[i - 1], ops[i - 1]);
    }
  }

  lemma OpenedTwice(ledger: Ledger, auths: Auths, auths': Auths)
    requires auths.Keys <= auths'.Keys && ledger.Keys <= auths.Keys
    ensures Opened(Opened(ledger, auths), auths') == Opened(ledger, auths')
  {
  }

  /** Over a sound run of group routes each email stands in each record once per direct grant of before, and
      once per membership in a group assigned now. */
  lemma {:induction false} GroupRunsKeepDirectGrants(ss: seq<Access>, ops: seq<RoleOp>, ledger: Ledger, i: nat)
    requires SoundRun(ss, ops) && RoleInv(ss[0]) && Balanced(ss[0], ledger) && i <= |ops|
    requires forall j :: 0 <= j < |ops| ==> GroupsOnly(ops[j])
    ensures ledger.Keys <= ss[i].auths.Keys && Balanced(ss[i], Opened(ledger, ss[i].auths))
  {
    if i == 0 {
      assert Opened(ledger, ss[0].auths) == ledger;
    } else {
      var s, s' := ss[i - 1], ss[i];
      GroupRunsKeepDirectGrants(ss, ops, ledger, i - 1);
      RunKeepsBooks(ss, ops, i - 1);
      BooksKept(s, ops[i - 1]);
      GroupStepBalances(s, Opened(ledger, s.auths), s');
      OpenedTwice(ledger, s.auths, s'.auths);
    }
  }

  /** The listing recovers the ledger: a registered user is listed individually for a record exactly when
      the record holds a direct grant of that user. */
  lemma ListedIffGranted(s: Access, ledger: Ledger, a: Id, u: string)
    requires Balanced(s, ledger) && a in s.auths && u in s.users
    ensures u in Individually(s, s.auths[a]) <==> u in ledger[a]
  {
    assert BalancedAt(s.groups, s.auths[a], ledger[a]);
    CountIn(s.auths[a].userIds, u);
  }
}
