/** Role bookkeeping: `user_ids` of an authorization record is a list used as a multiset. A user
    stands in it once for a direct grant and once for each membership in an assigned group. */
module Roles {
  import opened Types
  import opened Multisets
  import opened State

  datatype Member = Member(email: string, readOnly: bool, editor: bool)

  type Auths = map<Id, Authorization>
  type Groups = map<Id, seq<Member>>

  /** Users by email with their read-only flag; working files with their dataset; the file index. */
  datatype Access = Access(working: set<Id>, frozen: set<Id>, users: map<string, bool>, groups: Groups,
                           auths: Auths, files: map<Id, Id>, fileIndex: map<Id, multiset<string>>, next: Id)

  function Emails(members: seq<Member>): (r: seq<string>)
    ensures |r| == |members|
  {
    if members == [] then [] else [members[0].email] + Emails(members[1..])
  }

  /** How many memberships `u` has in the listed groups that exist; a group listed twice is one group. */
  function Memberships(groups: Groups, ids: seq<Id>, u: string): nat {
    if ids == [] then 0
    else
      (if ids[0] in groups && ids[0] !in ids[1..] then Count(Emails(groups[ids[0]]), u) else 0) +
      Memberships(groups, ids[1..], u)
  }

  /** The occurrences of `u` that no membership accounts for. */
  function Direct(groups: Groups, auth: Authorization, u: string): int {
    Count(auth.userIds, u) - Memberships(groups, auth.groupIds, u)
  }

  /** Every membership in an assigned group is counted. */
  ghost predicate Counted(groups: Groups, auth: Authorization) {
    forall u :: Direct(groups, auth, u) >= 0
  }

  ghost predicate GroupsListed(groups: Groups, auth: Authorization) {
    NoDuplicates(auth.groupIds) && forall g :: g in auth.groupIds ==> g in groups
  }

  /** Record `a` gives group `g` a role on dataset `d`. */
  predicate Grants(auths: Auths, a: Id, d: Id, g: Id) {
    a in auths && auths[a].dataset == d && g in auths[a].groupIds
  }

  /** Every membership in an assigned group is counted, and a group has one role per dataset. */
  ghost predicate Books(s: Access) {
    && (forall a :: a in s.auths ==> GroupsListed(s.groups, s.auths[a]) && Counted(s.groups, s.auths[a]))
    && OneRolePerGroup(s.auths)
  }

  ghost predicate OneRolePerGroup(auths: Auths) {
    forall a, b, d, g :: Grants(auths, a, d, g) && Grants(auths, b, d, g) ==> a == b
  }

  // ----- The file index -----

  function RecordsOf(auths: Auths, d: Id): set<Id> {
    set a | a in auths && auths[a].dataset == d
  }

  function UsersOf(auths: Auths): Id -> multiset<string> {
    a => if a in auths then multiset(auths[a].userIds) else multiset{}
  }

  /** The users of all records of a dataset together. */
  ghost function AllUsers(auths: Auths, d: Id): multiset<string> {
    Sum(UsersOf(auths), RecordsOf(auths, d))
  }

  /** Every working file is indexed under exactly the users its dataset's records name. */
  ghost predicate IndexAgrees(s: Access) {
    forall f :: f in s.files ==> Indexed(s, f)
  }

  ghost predicate Indexed(s: Access, f: Id)
    requires f in s.files
  {
    f in s.fileIndex && s.fileIndex[f] == AllUsers(s.auths, s.files[f])
  }

  /** The files of the datasets `ds` indexed anew. */
  ghost function Reindexed(s: Access, ds: set<Id>): Access {
    s.(fileIndex := s.fileIndex + Entries(s.auths, s.files, ds))
  }

  ghost function Entries(auths: Auths, files: map<Id, Id>, ds: set<Id>): map<Id, multiset<string>> {
    map f | f in files && files[f] in ds :: AllUsers(auths, files[f])
  }

  lemma AllUsersSame(auths: Auths, auths': Auths, d: Id)
    requires forall a :: a in auths && auths[a].dataset == d ==> a in auths' && auths'[a] == auths[a]
    requires forall a :: a in auths' && auths'[a].dataset == d ==> a in auths && auths'[a] == auths[a]
    ensures AllUsers(auths, d) == AllUsers(auths', d)
  {
    assert RecordsOf(auths, d) == RecordsOf(auths', d);
    SumSame(UsersOf(auths), UsersOf(auths'), RecordsOf(auths, d));
  }

  /** Reindexing the datasets whose records changed keeps every file's entry right. */
  lemma ReindexedAgrees(s: Access, s': Access, ds: set<Id>)
    requires IndexAgrees(s) && s'.files == s.files && s'.fileIndex == s.fileIndex
    requires forall a :: a in s.auths && s.auths[a].dataset !in ds ==> a in s'.auths && s'.auths[a] == s.auths[a]
    requires forall a :: a in s'.auths && s'.auths[a].dataset !in ds ==> a in s.auths && s'.auths[a] == s.auths[a]
    ensures IndexAgrees(Reindexed(s', ds))
  {
    forall f | f in s.files ensures Indexed(Reindexed(s', ds), f) {
      assert Indexed(s, f);
      if s.files[f] !in ds {
        AllUsersSame(s.auths, s'.auths, s.files[f]);
      }
    }
  }

  // ----- The routes, for a given answer of each `find_one` -----

  predicate Visible(s: Access, d: Id) {
    d in s.working || d in s.frozen
  }

  function GrantedTo(auths: Auths, d: Id, g: Id): set<Id> {
    set a | a in auths && Grants(auths, a, d, g)
  }

  function WithRole(auths: Auths, d: Id, role: Role): set<Id> {
    set a | a in auths && auths[a].dataset == d && auths[a].role == role
  }

  function Naming(auths: Auths, d: Id, u: string): set<Id> {
    set a | a in auths && auths[a].dataset == d && u in auths[a].userIds
  }

  ghost function RemoveGroupRole(s: Access, d: Id, g: Id, pick: Option<Id>): (Access, Outcome<Option<Id>>)
    requires Answers(pick, GrantedTo(s.auths, d, g))
  {
    if !Visible(s, d) || g !in s.groups then (s, Err(404))
    else if pick.None? then (s, Ok(None))
    else
      var auth := s.auths[pick.value];
      var stripped := auth.(groupIds := RemoveFirst(auth.groupIds, g),
                            userIds := RemoveEach(auth.userIds, Emails(s.groups[g])));
      (Reindexed(s.(auths := s.auths[pick.value := stripped]), {d}), Ok(pick))
  }

  function Writers(members: seq<Member>): seq<Member> {
    if members == [] then []
    else (if members[0].readOnly then [] else [members[0]]) + Writers(members[1..])
  }

  function Readers(members: seq<Member>): seq<Member> {
    if members == [] then []
    else (if members[0].readOnly then [members[0]] else []) + Readers(members[1..])
  }

  /** A new record, and the index after it. */
  ghost function WithRecord(s: Access, auth: Authorization): Access {
    Reindexed(s.(auths := s.auths[s.next := auth], next := s.next + 1), {auth.dataset})
  }

  function Joined(groups: Groups, auth: Authorization, g: Id): Authorization
    requires g in groups
  {
    auth.(groupIds := auth.groupIds + [g], userIds := auth.userIds + Emails(Writers(groups[g])))
  }

  function ViewerRecord(groups: Groups, d: Id, g: Id): Authorization
    requires g in groups
  {
    Authorization(d, Viewer, Emails(Readers(groups[g])), [g])
  }

  /** The group joins record `a`; its read-only members get a viewer record of their own. */
  ghost function GrantJoining(s: Access, d: Id, g: Id, a: Id): Access
    requires g in s.groups && a in s.auths
  {
    var auths := s.auths[a := Joined(s.groups, s.auths[a], g)];
    if Readers(s.groups[g]) == [] then Reindexed(s.(auths := auths), {d})
    else Reindexed(s.(auths := auths[s.next := ViewerRecord(s.groups, d, g)], next := s.next + 1), {d})
  }

  ghost function ViewerAdded(s: Access, d: Id, g: Id): Access
    requires g in s.groups
  {
    if Readers(s.groups[g]) == [] then s else WithRecord(s, ViewerRecord(s.groups, d, g))
  }

  /** The grant after the removal: into a record of that role if there is one, else into a new one;
      read-only members always into a new viewer record. */
  ghost function GrantGroup(s: Access, d: Id, g: Id, role: Role, into: Option<Id>): (Access, Outcome<Option<Id>>)
    requires g in s.groups && Answers(into, WithRole(s.auths, d, role))
  {
    if into.Some? then
      if g in s.auths[into.value].groupIds then (s, Ok(into)) else (GrantJoining(s, d, g, into.value), Ok(into))
    else
      var s1 := ViewerAdded(s, d, g);
      var writers := Emails(Writers(s.groups[g]));
      if writers == [] then (s1, Err(500))
      else (WithRecord(s1, Authorization(d, role, writers, [g])), Ok(Some(s1.next)))
  }

  ghost function SetGroupRole(s: Access, d: Id, g: Id, role: Role, pick: Option<Id>, into: Option<Id>)
    : (Access, Outcome<Option<Id>>)
    requires Answers(pick, GrantedTo(s.auths, d, g))
    requires Answers(into, WithRole(RemoveGroupRole(s, d, g, pick).0.auths, d, role))
  {
    if !Visible(s, d) || g !in s.groups then (s, Err(404))
    else GrantGroup(RemoveGroupRole(s, d, g, pick).0, d, g, role, into)
  }

  ghost function RemoveUserRole(s: Access, d: Id, u: string, pick: Option<Id>): (Access, Outcome<Option<Id>>)
    requires Answers(pick, Naming(s.auths, d, u))
  {
    if !Visible(s, d) || u !in s.users then (s, Err(404))
    else if pick.None? then (s, Ok(None))
    else
      var auth := s.auths[pick.value];
      (Reindexed(s.(auths := s.auths[pick.value := auth.(userIds := RemoveFirst(auth.userIds, u))]), {d}), Ok(pick))
  }

  /** The appended name; a second time when the first only makes up for a missing membership. */
  function WithUser(groups: Groups, auth: Authorization, u: string): Authorization {
    var once := auth.(userIds := auth.userIds + [u]);
    if Count(once.userIds, u) == Memberships(groups, once.groupIds, u) then once.(userIds := once.userIds + [u]) else once
  }

  ghost function GrantUser(s: Access, d: Id, u: string, role: Role, into: Option<Id>): (Access, Outcome<Option<Id>>)
    requires u in s.users && Answers(into, WithRole(s.auths, d, role))
  {
    if s.users[u] && role != Viewer then (s, Err(405))
    else if into.Some? && u !in s.auths[into.value].userIds then
      (Reindexed(s.(auths := s.auths[into.value := WithUser(s.groups, s.auths[into.value], u)]), {d}), Ok(into))
    else
      (WithRecord(s, Authorization(d, role, [u], [])), Ok(Some(s.next)))
  }

  ghost function SetUserRole(s: Access, d: Id, u: string, role: Role, pick: Option<Id>, into: Option<Id>)
    : (Access, Outcome<Option<Id>>)
    requires Answers(pick, Naming(s.auths, d, u))
    requires Answers(into, WithRole(RemoveUserRole(s, d, u, pick).0.auths, d, role))
  {
    if !Visible(s, d) || u !in s.users then (s, Err(404))
    else GrantUser(RemoveUserRole(s, d, u, pick).0, d, u, role, into)
  }

  /** The datasets whose records mention the group, as far as they are working datasets. */
  function Affected(s: Access, g: Id): set<Id> {
    set a | a in s.auths && g in s.auths[a].groupIds && s.auths[a].dataset in s.working :: s.auths[a].dataset
  }

  function Pushed(auths: Auths, g: Id, u: string): Auths {
    map a | a in auths :: if g in auths[a].groupIds then auths[a].(userIds := auths[a].userIds + [u]) else auths[a]
  }

  function Pulled(auths: Auths, g: Id, u: string): Auths {
    map a | a in auths :: if g in auths[a].groupIds then Taken(auths[a], u) else auths[a]
  }

  function Taken(auth: Authorization, u: string): Authorization {
    auth.(userIds := RemoveFirst(auth.userIds, u))
  }

  ghost function AddMember(s: Access, g: Id, u: string, editor: bool): (Access, Outcome<Id>) {
    if u !in s.users || g !in s.groups then (s, Err(404))
    else if u in Emails(s.groups[g]) then (s, Ok(g))
    else
      var s1 := s.(groups := s.groups[g := s.groups[g] + [Member(u, s.users[u], editor)]],
                   auths := Pushed(s.auths, g, u));
      (Reindexed(s1, Affected(s, g)), Ok(g))
  }

  /** The last member with that email, as the search loop leaves it. */
  function LastWith(members: seq<Member>, u: string): Option<Member> {
    if members == [] then None
    else if members[|members| - 1].email == u then Some(members[|members| - 1])
    else LastWith(members[..|members| - 1], u)
  }

  ghost function RemoveMember(s: Access, g: Id, u: string): (Access, Outcome<Id>) {
    if g !in s.groups then (s, Err(404))
    else
      match LastWith(s.groups[g], u)
      case None => (s, Ok(g))
      case Some(found) =>
        var s1 := s.(groups := s.groups[g := RemoveFirst(s.groups[g], found)], auths := Pulled(s.auths, g, u));
        (Reindexed(s1, Affected(s, g)), Ok(g))
  }

  /** `index_file` of an uploaded or updated file. */
  ghost function PutFile(s: Access, f: Id, d: Id): Access {
    s.(files := s.files[f := d], fileIndex := s.fileIndex[f := AllUsers(s.auths, d)])
  }

  // ----- Datasets, releases and files that come and go -----

  /** A new dataset with its owner record, which names nobody. */
  function DatasetOpened(s: Access, d: Id, a: Id): Access {
    s.(working := s.working + {d}, auths := s.auths[a := Authorization(d, Owner, [], [])], next := a + 1)
  }

  /** A new release; one whose freeze ended with an exception has no record. */
  function ReleaseOpened(s: Access, fd: Id, a: Option<Id>): Access {
    match a
    case None => s.(frozen := s.frozen + {fd})
    case Some(a) =>
      s.(frozen := s.frozen + {fd}, auths := s.auths[a := Authorization(fd, Owner, [], [])], next := a + 1)
  }

  function RecordsClosed(s: Access, ds: set<Id>): Access {
    s.(auths := map a | a in s.auths && s.auths[a].dataset !in ds :: s.auths[a])
  }

  function FilesTaken(s: Access, fs: set<Id>): Access {
    s.(files := s.files - fs, fileIndex := s.fileIndex - fs)
  }

  function FilesUnder(s: Access, d: Id): set<Id> {
    set f | f in s.files && s.files[f] == d
  }

  /** A dataset deleted with its releases. */
  function DatasetClosed(s: Access, d: Id, releases: set<Id>): Access {
    FilesTaken(RecordsClosed(s, releases + {d}), FilesUnder(s, d))
    .(working := s.working - {d}, frozen := s.frozen - releases)
  }

  // ----- get_dataset_roles -----

  /** The users listed individually for a record: named, and not exactly as often as its groups name them. */
  function Individually(s: Access, auth: Authorization): set<string> {
    set u | u in s.users && u in auth.userIds &&
            !(Memberships(s.groups, auth.groupIds, u) > 0 &&
              Count(auth.userIds, u) == Memberships(s.groups, auth.groupIds, u))
  }

  /** What `get_dataset_roles` answers for one record. */
  datatype Listed = Listed(role: Role, groups: set<Id>, individuals: set<string>)

  function ListedFor(s: Access, auth: Authorization): Listed {
    Listed(auth.role, (set g | g in auth.groupIds && g in s.groups), Individually(s, auth))
  }

  // ----- A ledger of direct grants -----

  /** Who was granted a role directly in which record, kept beside the records: it is written by the
      user routes only and knows nothing of groups. */
  type Ledger = map<Id, multiset<string>>

  /** A direct grant is entered at the record the route returns. */
  function Entered(ledger: Ledger, a: Id, u: string): Ledger {
    ledger[a := (if a in ledger then ledger[a] else multiset{}) + multiset{u}]
  }

  /** ... and struck at the record a removal hits, if there is one. */
  function Struck(ledger: Ledger, a: Id, u: string): Ledger
    requires a in ledger
  {
    ledger[a := ledger[a] - multiset{u}]
  }

  /** Records made by group routes start without direct grants. */
  function Opened(ledger: Ledger, auths: Auths): Ledger {
    map a | a in auths :: if a in ledger then ledger[a] else multiset{}
  }

  /** Each email stands in each record once per direct grant in the ledger and once per membership. */
  ghost predicate Balanced(s: Access, ledger: Ledger) {
    ledger.Keys == s.auths.Keys && forall a :: a in s.auths ==> BalancedAt(s.groups, s.auths[a], ledger[a])
  }

  ghost predicate BalancedAt(groups: Groups, auth: Authorization, granted: multiset<string>) {
    forall u :: Count(auth.userIds, u) == granted[u] + Memberships(groups, auth.groupIds, u)
  }
}
