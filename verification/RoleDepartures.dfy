/** Sound states of the role bookkeeping in which a route does what is not wanted of it. */
module RoleDepartures {
  import opened Types
  import opened State
  import opened Roles
  import opened RoleSteps
  import opened RoleRuns
  import opened DatasetEntries

  /** One dataset, one registered user, one group. */
  function Start(readOnly: bool, members: seq<Member>, auths: Auths): Access {
    Access({0}, {}, map["u" := readOnly], map[5 := members], auths, map[], map[], 10)
  }

  const READER := Member("u", true, false)
  const WRITER := Member("w", false, false)

  /** A group with a read-only member is granted a role: two records for one group. */
  lemma ReadOnlyMemberSplitsTheGroup()
    ensures var s := Start(true, [READER, WRITER], map[]);
            && RoleInv(s)
            && Answers(None, GrantedTo(s.auths, 0, 5)) && Answers(None, WithRole(s.auths, 0, Editor))
            && SetGroupRole(s, 0, 5, Editor, None, None).1.Ok?
            && !Books(SetGroupRole(s, 0, 5, Editor, None, None).0)
  {
    var s := Start(true, [READER, WRITER], map[]);
    assert [READER, WRITER][1..] == [WRITER] && [WRITER][1..] == [];
    assert READER in Readers([READER, WRITER]) && WRITER in Writers([READER, WRITER]);
    GrantGroupKeepsIff(s, 0, 5, Editor, None);
    EmailsOfSome(Writers(s.groups[5]));
  }

  /** A group of read-only members only, and no record of the role: the route fails after its first insert. */
  lemma GrantFailsHalfway()
    ensures var s := Start(true, [READER], map[]);
            && RoleInv(s)
            && Answers(None, GrantedTo(s.auths, 0, 5)) && Answers(None, WithRole(s.auths, 0, Editor))
            && SetGroupRole(s, 0, 5, Editor, None, None).1 == Err(500)
            && SetGroupRole(s, 0, 5, Editor, None, None).0.auths != s.auths
  {
    var s := Start(true, [READER], map[]);
    assert [READER][1..] == [] && Readers([READER]) == [READER] + Readers([]) == [READER];
    assert Writers([READER]) == [] + Writers([]) == [];
    assert 10 in SetGroupRole(s, 0, 5, Editor, None, None).0.auths;
  }

  function ThroughGroup(): Auths {
    map[1 := Authorization(0, Viewer, ["u"], [5])]
  }

  lemma ThroughGroupIsSound(readOnly: bool)
    ensures var s := Start(readOnly, [Member("u", readOnly, false)], ThroughGroup());
            && RoleInv(s) && Direct(s.groups, s.auths[1], "u") == 0 && 1 in Naming(s.auths, 0, "u")
  {
    var member := Member("u", readOnly, false);
    var s := Start(readOnly, [member], ThroughGroup());
    assert Emails([member]) == ["u"];
    forall v ensures Direct(s.groups, s.auths[1], v) == 0 {
      assert [5] == [] + [5];
      MembershipsAppend(s.groups, [], 5, v);
    }
    assert "u" in ["u"] && 1 in Naming(s.auths, 0, "u");
  }

  /** The role of a user who has it through a group is removed: the occurrence of the membership goes. */
  lemma RemovalConsumesAMembership()
    ensures var s := Start(false, [Member("u", false, false)], ThroughGroup());
            && RoleInv(s) && Answers(Some(1), Naming(s.auths, 0, "u"))
            && RemoveUserRole(s, 0, "u", Some(1)).1.Ok?
            && !Books(RemoveUserRole(s, 0, "u", Some(1)).0)
  {
    ThroughGroupIsSound(false);
    RemoveUserRoleKeepsIff(Start(false, [Member("u", false, false)], ThroughGroup()), 0, "u", 1);
  }

  /** A read-only user is refused a higher role, and has lost the old one. */
  lemma RefusalStrips()
    ensures var s := Start(true, [], map[1 := Authorization(0, Viewer, ["u"], [])]);
            && RoleInv(s) && Answers(Some(1), Naming(s.auths, 0, "u"))
            && Answers(None, WithRole(RemoveUserRole(s, 0, "u", Some(1)).0.auths, 0, Editor))
            && SetUserRole(s, 0, "u", Editor, Some(1), None).1 == Err(405)
            && SetUserRole(s, 0, "u", Editor, Some(1), None).0.auths[1].userIds == []
  {
    var s := Start(true, [], map[1 := Authorization(0, Viewer, ["u"], [])]);
    assert "u" in ["u"] && 1 in Naming(s.auths, 0, "u");
    assert ["u"][1..] == [];
    RefusedStillStrips(s, 0, "u", Editor, Some(1), None);
  }

  /** ... even where the role came from a group, which breaks the bookkeeping. */
  lemma RefusalConsumesAMembership()
    ensures var s := Start(true, [Member("u", true, false)], ThroughGroup());
            && RoleInv(s) && Answers(Some(1), Naming(s.auths, 0, "u"))
            && Answers(None, WithRole(RemoveUserRole(s, 0, "u", Some(1)).0.auths, 0, Editor))
            && SetUserRole(s, 0, "u", Editor, Some(1), None).1 == Err(405)
            && !Books(SetUserRole(s, 0, "u", Editor, Some(1), None).0)
  {
    ThroughGroupIsSound(true);
    SetUserRoleKeepsIff(Start(true, [Member("u", true, false)], ThroughGroup()), 0, "u", Editor, Some(1), None);
  }

  function BesideAnother(): Access {
    Start(false, [], map[1 := Authorization(0, Owner, ["w"], [])])
  }

  lemma BesideAnotherIsSound()
    ensures RoleInv(BesideAnother())
  {
  }

  lemma GrantBesideAnother()
    ensures var s := BesideAnother();
            var op := OpSetUser(0, "u", Viewer, None, None);
            && Possible(s, op) && WritesFrom(s, op, 0, 10)
            && 1 in After(s, op).auths && After(s, op).auths[1] == Authorization(0, Owner, ["w"], [])
  {
  }

  /** One user is granted a role beside another's: the dataset's own entry names the new one only. */
  lemma GrantForgetsTheOthers()
    ensures var s := BesideAnother();
            var op := OpSetUser(0, "u", Viewer, None, None);
            RoleInv(s) && Possible(s, op) && WritesFrom(s, op, 0, 10) && !EntryAgrees(After(s, op).auths, 0, 10)
  {
    hide RoleInv, Possible, WritesFrom, After, EntryAgrees, BesideAnother;
    BesideAnotherIsSound();
    GrantBesideAnother();
    RouteEntryAgreesIff(BesideAnother(), OpSetUser(0, "u", Viewer, None, None), 0, 10);
  }
}
