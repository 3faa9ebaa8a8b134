/**
 What every run of the membership operations keeps: each organisation's one owner is its creator, each
 user has at most one current organisation, and only members have access to an organisation's configs.
 */
module OrganisationRuns {
  import opened Wrappers
  import opened Sets
  import opened OrganisationDb

  // ---------- The invariants ----------

  /** Memberships, invitations, configs and access rows refer to rows that exist. */
  ghost predicate Linked(db: Db) {
    && (forall k <- db.members :: k.0 in db.organisations)
    && (forall k <- db.invitations :: k.0 in db.organisations)
    && (forall c <- db.configs :: db.configs[c].organisationId.Some? ==>
        db.configs[c].organisationId.value in db.organisations)
  }

  ghost predicate OneCurrent(db: Db) {
    forall j <- db.members, k <- db.members ::
      j.1 == k.1 && db.members[j].isCurrent && db.members[k].isCurrent ==> j == k
  }

  ghost predicate OwnerIsCreator(db: Db) {
    && (forall o <- db.organisations ::
          var k := (o, db.organisations[o].createdByUserId);
          k in db.members && db.members[k].role == Owner)
    && (forall k <- db.members :: db.members[k].role == Owner ==>
          k.0 in db.organisations && k.1 == db.organisations[k.0].createdByUserId)
  }

  /**
   Whoever has access to a config of an organisation is a member of it, except the given users in the
   given organisation.
   */
  ghost predicate IsolatedExcept(db: Db, o: OrgId, pending: set<UserId>) {
    forall k <- db.access ::
      k.0 in db.configs && db.configs[k.0].organisationId.Some? ==>
        || (db.configs[k.0].organisationId.value, k.1) in db.members
        || (db.configs[k.0].organisationId.value == o && k.1 in pending)
  }

  ghost predicate InvExcept(db: Db, o: OrgId, pending: set<UserId>) {
    Linked(db) && OneCurrent(db) && OwnerIsCreator(db) && IsolatedExcept(db, o, pending)
  }

  ghost predicate Inv(db: Db) {
    && Linked(db) && OneCurrent(db) && OwnerIsCreator(db)
    && forall k <- db.access ::
         k.0 in db.configs && db.configs[k.0].organisationId.Some? ==>
           (db.configs[k.0].organisationId.value, k.1) in db.members
  }

  // ---------- Sharing ----------

  /**
   What sharing a list of configs does to the access rows: the user has every listed config, no row that
   existed changes, and new rows give viewing rights only.
   */
  lemma {:induction false} ShareEachGives(access: map<(ConfigId, UserId), Access>, u: UserId,
      cs: seq<ConfigId>, settled: bool)
    decreases |cs|
    ensures
      var access' := ShareEach(access, u, cs, settled);
      && (forall k :: k in access' <==> k in access || (k.1 == u && k.0 in cs))
      && (forall k <- access :: access'[k] == access[k])
      && (forall k <- access' :: k !in access ==>
            !access'[k].canEdit && !access'[k].canShare && !access'[k].canDelete)
  {
    if cs != [] {
      var next := if (cs[0], u) in access then access else access[(cs[0], u) := Access(!settled, false, false, false)];
      ShareEachGives(next, u, cs[1..], settled || (cs[0], u) !in access);
    }
  }

  /** The right to view a config and no other. */
  predicate MayOnlyView(row: Access) {
    !row.canEdit && !row.canShare && !row.canDelete
  }

  /** The first of the listed configs that the user lacks. */
  ghost predicate IsFirstMissing(access: map<(ConfigId, UserId), Access>, u: UserId, cs: seq<ConfigId>, c: ConfigId) {
    exists i | 0 <= i < |cs| ::
      cs[i] == c && (c, u) !in access && forall j | 0 <= j < i :: (cs[j], u) in access
  }

  /** Of the new rows exactly the first is current, and none is when that was settled before. */
  lemma {:induction false} ShareEachCurrent(access: map<(ConfigId, UserId), Access>, u: UserId,
      cs: seq<ConfigId>, settled: bool)
    decreases |cs|
    ensures
      var access' := ShareEach(access, u, cs, settled);
      forall c :: (c, u) in access' && (c, u) !in access ==>
        (access'[(c, u)].isCurrent <==> !settled && IsFirstMissing(access, u, cs, c))
  {
    if cs != [] {
      var key := (cs[0], u);
      if key in access {
        ShareEachCurrent(access, u, cs[1..], settled);
        forall c
          ensures IsFirstMissing(access, u, cs, c) <==> IsFirstMissing(access, u, cs[1..], c)
        {
          FirstMissingTail(access, u, cs, c);
        }
      } else {
        var next := access[key := Access(!settled, false, false, false)];
        ShareEachCurrent(next, u, cs[1..], true);
        ShareEachGives(next, u, cs[1..], true);
        forall c | (c, u) in ShareEach(access, u, cs, settled) && (c, u) !in access
          ensures IsFirstMissing(access, u, cs, c) <==> c == cs[0]
        {
          if c == cs[0] {
            assert cs[0] == c;
          }
        }
      }
    }
  }

  lemma FirstMissingTail(access: map<(ConfigId, UserId), Access>, u: UserId, cs: seq<ConfigId>, c: ConfigId)
    requires cs != [] && (cs[0], u) in access
    ensures IsFirstMissing(access, u, cs, c) <==> IsFirstMissing(access, u, cs[1..], c)
  {
    if i :| 0 <= i < |cs| && cs[i] == c && (c, u) !in access && forall j | 0 <= j < i :: (cs[j], u) in access {
      assert cs[1..][i - 1] == c;
      assert forall j | 0 <= j < i - 1 :: cs[1..][j] == cs[j + 1];
    }
    if i :|
      && 0 <= i < |cs[1..]| && cs[1..][i] == c && (c, u) !in access
      && (forall j | 0 <= j < i :: (cs[1..][j], u) in access)
    {
      assert cs[i + 1] == c;
      assert forall j | 0 < j < i + 1 :: cs[j] == cs[1..][j - 1];
    }
  }

  /** At most one config of the organisation is current for the user. */
  ghost predicate OneCurrentConfig(db: Db, o: OrgId, u: UserId) {
    forall c, d | (c, u) in db.access && (d, u) in db.access && IsConfigOf(db, c, o) && IsConfigOf(db, d, o) ::
      db.access[(c, u)].isCurrent && db.access[(d, u)].isCurrent ==> c == d
  }

  /**
   Bulk sharing gives the user access to every config of the organisation and leaves every row that
   existed as it was.
   */
  lemma BulkSharing(db: Db, o: OrgId, u: UserId, cs: seq<ConfigId>)
    requires ListsConfigs(db, o, cs)
    ensures
      var db' := Shared(db, o, u, cs);
      && db' == db.(access := db'.access)
      && (forall k :: k in db'.access <==> k in db.access || (k.1 == u && IsConfigOf(db, k.0, o)))
      && (forall k <- db.access :: db'.access[k] == db.access[k])
      && (forall k <- db'.access :: k !in db.access ==> MayOnlyView(db'.access[k]))
  {
    ShareEachGives(db.access, u, cs, HasCurrentConfig(db, o, u));
  }

  /** One of the oldest of the organisation's configs that the user lacks. */
  ghost predicate IsOldestMissing(db: Db, o: OrgId, u: UserId, c: ConfigId) {
    && IsConfigOf(db, c, o) && (c, u) !in db.access
    && forall d <- db.configs :: IsConfigOf(db, d, o) && (d, u) !in db.access ==>
         db.configs[c].createdAt <= db.configs[d].createdAt
  }

  /**
   Which config bulk sharing makes current: none when the user had a current config in the organisation
   or lacked none, and otherwise exactly one, an oldest of those the user lacked. So it keeps at most one
   current config per user and organisation.
   */
  lemma BulkSharingCurrent(db: Db, o: OrgId, u: UserId, cs: seq<ConfigId>) returns (chosen: Option<ConfigId>)
    requires ListsConfigs(db, o, cs)
    ensures chosen.Some? <==>
              !HasCurrentConfig(db, o, u) && exists c <- db.configs :: IsConfigOf(db, c, o) && (c, u) !in db.access
    ensures chosen.Some? ==> IsOldestMissing(db, o, u, chosen.value)
    ensures forall k <- Shared(db, o, u, cs).access :: k !in db.access ==>
              (Shared(db, o, u, cs).access[k].isCurrent <==> chosen == Some(k.0))
    ensures OneCurrentConfig(db, o, u) ==> OneCurrentConfig(Shared(db, o, u, cs), o, u)
  {
    var settled := HasCurrentConfig(db, o, u);
    BulkSharing(db, o, u, cs);
    ShareEachCurrent(db.access, u, cs, settled);
    chosen := None;
    if !settled {
      if missing :| missing in db.configs && IsConfigOf(db, missing, o) && (missing, u) !in db.access {
        var first := FirstMissing(db.access, u, cs, missing);
        FirstMissingIsOldest(db, o, u, cs, first);
        chosen := Some(first);
      }
    }
  }

  lemma FirstMissingIsOldest(db: Db, o: OrgId, u: UserId, cs: seq<ConfigId>, c: ConfigId)
    requires ListsConfigs(db, o, cs) && IsFirstMissing(db.access, u, cs, c)
    ensures IsOldestMissing(db, o, u, c)
    ensures forall d :: IsFirstMissing(db.access, u, cs, d) ==> d == c
  {
    var i :| 0 <= i < |cs| && cs[i] == c && forall j | 0 <= j < i :: (cs[j], u) in db.access;
    assert c in cs;
    forall d <- db.configs | IsConfigOf(db, d, o) && (d, u) !in db.access
      ensures db.configs[c].createdAt <= db.configs[d].createdAt
    {
      assert d in cs;
      var j :| 0 <= j < |cs| && cs[j] == d;
      assert i <= j;
    }
  }

  lemma {:induction false} FirstMissing(access: map<(ConfigId, UserId), Access>, u: UserId, cs: seq<ConfigId>,
      missing: ConfigId)
    returns (c: ConfigId)
    requires missing in cs && (missing, u) !in access
    decreases |cs|
    ensures IsFirstMissing(access, u, cs, c)
  {
    if (cs[0], u) !in access {
      c := cs[0];
    } else {
      c := FirstMissing(access, u, cs[1..], missing);
      FirstMissingTail(access, u, cs, c);
    }
  }

  // ---------- What each change of the tables keeps ----------

  lemma SharedKeeps(db: Db, o: OrgId, u: UserId, cs: seq<ConfigId>, pending: set<UserId>)
    requires InvExcept(db, o, pending) && (o, u) in db.members && ListsConfigs(db, o, cs)
    ensures InvExcept(Shared(db, o, u, cs), o, pending - {u})
  {
    BulkSharing(db, o, u, cs);
  }

  lemma JoinedKeeps(db: Db, o: OrgId, u: UserId, isCurrent: bool, pending: set<UserId>)
    requires InvExcept(db, o, pending) && o in db.organisations && (o, u) !in db.members
    requires isCurrent ==> !HasCurrent(db, u)
    ensures InvExcept(Joined(db, o, u, Member, isCurrent), o, pending)
  {
  }

  lemma MadeCurrentKeeps(db: Db, o: OrgId, u: UserId, pending: set<UserId>)
    requires InvExcept(db, o, pending) && (o, u) in db.members && !HasCurrent(db, u)
    ensures InvExcept(MadeCurrent(db, o, u), o, pending)
  {
  }

  lemma NobodyPending(db: Db, o: OrgId)
    ensures Inv(db) <==> InvExcept(db, o, {})
  {
  }

  lemma CreatedKeeps(db: Db, actor: UserId, o: OrgId, name: string, slug: string)
    requires Inv(db) && o !in db.organisations
    ensures Inv(Created(db, actor, o, name, slug))
  {
  }

  lemma MovedLeavesSharersPending(db: Db, o: OrgId, u: UserId)
    requires Inv(db) && (o, u) in db.members
    ensures InvExcept(Moved(db, o, Orphans(db, u)), o, SharersOf(db, u, Orphans(db, u)))
  {
  }

  lemma CurrentSetKeeps(db: Db, actor: UserId, o: OrgId)
    requires Inv(db) && (o, actor) in db.members
    ensures Inv(CurrentSet(db, actor, o))
  {
  }

  lemma WithoutOrganisationKeeps(db: Db, o: OrgId, dropConfigs: bool)
    requires Inv(db)
    ensures Inv(WithoutOrganisation(db, o, dropConfigs))
  {
  }

  lemma WithoutAccessKeeps(db: Db, o: OrgId, u: UserId)
    requires Inv(db)
    ensures Inv(WithoutAccess(db, o, u))
    ensures forall k <- WithoutAccess(db, o, u).access :: !(k.1 == u && IsConfigOf(db, k.0, o))
  {
  }

  /** A membership may go once its access rows have gone, unless it is the creator's. */
  lemma WithoutMemberKeeps(db: Db, o: OrgId, u: UserId)
    requires Inv(db) && o in db.organisations && u != db.organisations[o].createdByUserId
    requires forall k <- db.access :: !(k.1 == u && IsConfigOf(db, k.0, o))
    ensures Inv(WithoutMember(db, o, u))
  {
  }

  lemma PromotedKeeps(db: Db, u: UserId, wasCurrent: bool, next: Option<OrgId>)
    requires Inv(db) && (wasCurrent ==> !HasCurrent(db, u))
    ensures Inv(Promoted(db, u, wasCurrent, next))
  {
    hide Inv, InvExcept, MadeCurrent;
    if wasCurrent && next.Some? && (next.value, u) in db.members {
      NobodyPending(db, next.value);
      MadeCurrentKeeps(db, next.value, u, {});
      NobodyPending(MadeCurrent(db, next.value, u), next.value);
    }
  }

  // ---------- What each operation keeps ----------

  lemma JoinedAndSharedKeeps(db: Db, o: OrgId, u: UserId, cs: seq<ConfigId>)
    requires Inv(db) && o in db.organisations && (o, u) !in db.members && ListsConfigs(db, o, cs)
    ensures Inv(JoinedAndShared(db, o, u, cs))
  {
    hide Inv, InvExcept;
    var joined := Joined(db, o, u, Member, false);
    NobodyPending(db, o);
    JoinedKeeps(db, o, u, false, {});
    SharedKeeps(joined, o, u, cs, {});
    assert {} - {u} == {};
    NobodyPending(Shared(joined, o, u, cs), o);
  }

  lemma AdmittedKeeps(db: Db, o: OrgId, u: UserId, cs: seq<ConfigId>, pending: set<UserId>)
    requires InvExcept(db, o, pending) && o in db.organisations && ListsConfigs(db, o, cs)
    ensures InvExcept(Admitted(db, o, u, cs), o, pending - {u})
    ensures Admitted(db, o, u, cs).configs == db.configs && Admitted(db, o, u, cs).organisations == db.organisations
  {
    hide InvExcept, HasCurrent;
    if (o, u) !in db.members {
      JoinedKeeps(db, o, u, !HasCurrent(db, u), pending);
      SharedKeeps(Joined(db, o, u, Member, !HasCurrent(db, u)), o, u, cs, pending);
    } else if !HasCurrent(db, u) {
      MadeCurrentKeeps(db, o, u, pending);
      SharedKeeps(MadeCurrent(db, o, u), o, u, cs, pending);
    } else {
      SharedKeeps(db, o, u, cs, pending);
    }
  }

  function Users(admissions: seq<Admission>): set<UserId> {
    set i | 0 <= i < |admissions| :: admissions[i].user
  }

  lemma {:induction false} AdmittedAllKeeps(db: Db, o: OrgId, admissions: seq<Admission>, pending: set<UserId>)
    requires InvExcept(db, o, pending) && o in db.organisations
    requires forall i | 0 <= i < |admissions| :: ListsConfigs(db, o, admissions[i].configs)
    ensures InvExcept(AdmittedAll(db, o, admissions), o, pending - Users(admissions))
    ensures AdmittedAll(db, o, admissions).configs == db.configs
    ensures AdmittedAll(db, o, admissions).organisations == db.organisations
  {
    hide InvExcept, Admitted;
    if admissions == [] {
      assert pending - Users(admissions) == pending;
    } else {
      var before, last := admissions[..|admissions| - 1], admissions[|admissions| - 1];
      AdmittedAllKeeps(db, o, before, pending);
      AdmittedKeeps(AdmittedAll(db, o, before), o, last.user, last.configs, pending - Users(before));
      assert pending - Users(before) - {last.user} == pending - Users(admissions) by {
        assert Users(admissions) == Users(before) + {last.user};
      }
    }
  }

  /** A migration brings every user who shares a moved config into the organisation, so access stays with members. */
  lemma MigratedKeeps(db: Db, o: OrgId, u: UserId, admissions: seq<Admission>)
    requires Inv(db) && (o, u) in db.members && o in db.organisations
    requires Migrates(db, o, u) ==> ListsSharers(db, u, o, admissions)
    ensures Inv(Migrated(db, o, u, admissions))
  {
    hide Inv, InvExcept, NamesUnique;
    if Migrates(db, o, u) {
      var orphans := Orphans(db, u);
      var moved := Moved(db, o, orphans);
      MovedLeavesSharersPending(db, o, u);
      AdmittedAllKeeps(moved, o, admissions, SharersOf(db, u, orphans));
      assert SharersOf(db, u, orphans) - Users(admissions) == {};
      NobodyPending(AdmittedAll(moved, o, admissions), o);
    }
  }

  lemma CreateKeeps(db: Db, op: Operation)
    requires Inv(db) && op.Create? && Legit(db, op)
    ensures Inv(Apply(db, op))
  {
    hide Inv, Migrated;
    var created := Created(db, op.actor, op.org, op.name, op.slug);
    CreatedKeeps(db, op.actor, op.org, op.name, op.slug);
    MigratedKeeps(created, op.org, op.actor, op.admissions);
  }

  lemma WithoutInvitationKeeps(db: Db, o: OrgId, email: Email)
    requires Inv(db)
    ensures Inv(WithoutInvitation(db, o, email))
  {
  }

  /** The invitations still listed, with their configs. */
  ghost predicate AreInvitations(db: Db, email: Email, joins: seq<Join>) {
    && (forall i | 0 <= i < |joins| ::
          && (joins[i].org, email) in db.invitations
          && joins[i].org in db.organisations
          && ListsConfigs(db, joins[i].org, joins[i].configs))
    && (forall i, j | 0 <= i < j < |joins| :: joins[i].org != joins[j].org)
  }

  lemma {:induction false} InvitationsMovedKeeps(db: Db, u: UserId, email: Email, joins: seq<Join>)
    requires Inv(db) && AreInvitations(db, email, joins)
    ensures Inv(InvitationsMoved(db, u, email, joins))
    decreases |joins|
  {
    hide Inv;
    if joins != [] && (joins[0].org, u) !in db.members {
      var joined := JoinedAndShared(db, joins[0].org, u, joins[0].configs);
      JoinedAndSharedKeeps(db, joins[0].org, u, joins[0].configs);
      WithoutInvitationKeeps(joined, joins[0].org, email);
      var next := WithoutInvitation(joined, joins[0].org, email);
      assert AreInvitations(next, email, joins[1..]) by {
        assert forall i | 0 <= i < |joins| - 1 :: joins[1..][i] == joins[i + 1];
      }
      InvitationsMovedKeeps(next, u, email, joins[1..]);
    }
  }

  /** The one membership left in an organisation that may be deleted is its creator's. */
  lemma SoleMemberIsCreator(db: Db, actor: UserId, o: OrgId)
    requires Inv(db) && MayDelete(db, actor, o)
    ensures forall k <- db.members :: k.0 == o ==> k.1 == actor
  {
    var ks := set k <- db.members | k.0 == o;
    forall k <- db.members | k.0 == o
      ensures k.1 == actor
    {
      if k.1 != actor {
        assert {k, (o, actor)} <= ks;
        SubsetSize({k, (o, actor)}, ks);
      }
    }
  }

  /** Once the current membership is gone, the user has none. */
  lemma NoneCurrentWithoutMember(db: Db, o: OrgId, u: UserId)
    requires OneCurrent(db) && WasCurrent(db, o, u)
    ensures !HasCurrent(WithoutMember(WithoutAccess(db, o, u), o, u), u)
  {
  }

  lemma NoneCurrentWithoutOrganisation(db: Db, o: OrgId, u: UserId, dropConfigs: bool)
    requires OneCurrent(db) && WasCurrent(db, o, u)
    ensures !HasCurrent(WithoutOrganisation(db, o, dropConfigs), u)
  {
  }

  lemma DeleteKeeps(db: Db, op: Operation)
    requires Inv(db) && op.Delete? && MayDelete(db, op.actor, op.org)
    ensures Inv(Apply(db, op))
  {
    hide Promoted, MayDelete, HasCurrent, Linked, OneCurrent, OwnerIsCreator, WithoutOrganisation;
    var without := WithoutOrganisation(db, op.org, op.dropConfigs);
    WithoutOrganisationKeeps(db, op.org, op.dropConfigs);
    var wasCurrent := WasCurrent(db, op.org, op.actor);
    if wasCurrent {
      NoneCurrentWithoutOrganisation(db, op.org, op.actor, op.dropConfigs);
    }
    PromotedKeeps(without, op.actor, wasCurrent, op.next);
  }

  lemma RemoveKeeps(db: Db, op: Operation)
    requires Inv(db) && op.Remove? && MayRemove(db, op.actor, op.org, op.user) && (op.org, op.user) in db.members
    ensures Inv(Apply(db, op))
  {
    hide Promoted, HasCurrent, Linked, OneCurrent, OwnerIsCreator, IsAdminOrOwner;
    var o, u := op.org, op.user;
    WithoutAccessKeeps(db, o, u);
    var without := WithoutMember(WithoutAccess(db, o, u), o, u);
    WithoutMemberKeeps(WithoutAccess(db, o, u), o, u);
    var wasCurrent := WasCurrent(db, o, u);
    if wasCurrent {
      NoneCurrentWithoutMember(db, o, u);
    }
    PromotedKeeps(without, u, wasCurrent, op.next);
  }

  lemma UpdateRoleKeeps(db: Db, op: Operation)
    requires Inv(db) && op.UpdateRole?
    ensures Inv(Apply(db, op))
  {
    hide Inv;
    if MayUpdateRole(db, op.actor, op.org, op.user, op.role) {
      RoleUpdatedKeeps(db, op.org, op.user, op.role);
    }
  }

  lemma RoleUpdatedKeeps(db: Db, o: OrgId, u: UserId, role: Role)
    requires Inv(db) && o in db.organisations && u != db.organisations[o].createdByUserId
    requires (o, u) in db.members && role != Owner
    ensures Inv(RoleUpdated(db, o, u, role))
  {
  }

  lemma InviteKeeps(db: Db, op: Operation)
    requires Inv(db) && op.Invite? && Legit(db, op)
    ensures Inv(Apply(db, op))
  {
    if IsAdminOrOwner(db, op.org, op.actor) && op.invitee.Some? && (op.org, op.invitee.value) !in db.members {
      JoinedAndSharedKeeps(db, op.org, op.invitee.value, op.configs);
    }
  }

  lemma AcceptKeeps(db: Db, op: Operation)
    requires Inv(db) && op.Accept? && Legit(db, op)
    ensures Inv(Apply(db, op))
  {
    if MayAccept(db, op.actor, op.org, op.email) {
      JoinedAndSharedKeeps(db, op.org, op.actor, op.configs);
      WithoutInvitationKeeps(JoinedAndShared(db, op.org, op.actor, op.configs), op.org, op.email);
    }
  }

  /** Every operation, with whatever choices the database makes, keeps the invariants; so does a refused one. */
  lemma OperationKeepsInv(db: Db, op: Operation)
    requires Inv(db) && Legit(db, op)
    ensures Inv(Apply(db, op))
  {
    match op
    case Create(_, _, _, _, _) => CreateKeeps(db, op);
    case SetCurrent(actor, o) =>
      if (o, actor) in db.members {
        CurrentSetKeeps(db, actor, o);
      }
    case Delete(actor, o, _, _) =>
      if MayDelete(db, actor, o) {
        DeleteKeeps(db, op);
      }
    case Invite(_, _, _, _, _) => InviteKeeps(db, op);
    case Accept(_, _, _, _) => AcceptKeeps(db, op);
    case Decline(_, o, email) => WithoutInvitationKeeps(db, o, email);
    case Cancel(_, o, email) => WithoutInvitationKeeps(db, o, email);
    case MoveInvitations(actor, email, joins) => InvitationsMovedKeeps(db, actor, email, joins);
    case Remove(actor, o, u, _) =>
      if MayRemove(db, actor, o, u) {
        WithoutAccessKeeps(db, o, u);
        if (o, u) in db.members {
          RemoveKeeps(db, op);
        }
      }
    case UpdateRole(_, _, _, _) => UpdateRoleKeeps(db, op);
  }

  // ---------- Current organisations and roles ----------

  /** Memberships only appear, keep their roles, and are not unset as current. */
  ghost predicate Grows(db: Db, db': Db) {
    forall k <- db.members ::
      && k in db'.members
      && db'.members[k].role == db.members[k].role
      && (db.members[k].isCurrent ==> db'.members[k].isCurrent)
  }

  lemma {:induction false} AdmittedAllGrows(db: Db, o: OrgId, admissions: seq<Admission>)
    ensures Grows(db, AdmittedAll(db, o, admissions))
  {
    if admissions != [] {
      AdmittedAllGrows(db, o, admissions[..|admissions| - 1]);
    }
  }

  lemma {:induction false} InvitationsMovedGrows(db: Db, u: UserId, email: Email, joins: seq<Join>)
    ensures Grows(db, InvitationsMoved(db, u, email, joins))
    decreases |joins|
  {
    if joins != [] && (joins[0].org, u) !in db.members {
      var joined := JoinedAndShared(db, joins[0].org, u, joins[0].configs);
      InvitationsMovedGrows(WithoutInvitation(joined, joins[0].org, email), u, email, joins[1..]);
    }
  }

  lemma CreateGrows(db: Db, op: Operation)
    requires Inv(db) && op.Create? && Legit(db, op)
    ensures Grows(db, Apply(db, op))
  {
    var created := Created(db, op.actor, op.org, op.name, op.slug);
    assert Grows(db, created);
    AdmittedAllGrows(Moved(created, op.org, Orphans(created, op.actor)), op.org, op.admissions);
  }

  lemma OthersGrow(db: Db, op: Operation)
    requires Inv(db) && Legit(db, op)
    requires op.Create? || op.Invite? || op.Accept? || op.Decline? || op.Cancel? || op.MoveInvitations?
    ensures Grows(db, Apply(db, op))
  {
    hide Inv;
    match op
    case Create(_, _, _, _, _) => CreateGrows(db, op);
    case MoveInvitations(actor, email, joins) => InvitationsMovedGrows(db, actor, email, joins);
    case Invite(_, _, _, _, _) =>
    case Accept(_, _, _, _) =>
    case Decline(_, _, _) =>
    case Cancel(_, _, _) =>
  }

  ghost predicate KeepsCurrent(db: Db, db': Db, u: UserId) {
    HasCurrent(db, u) && BelongsSomewhere(db', u) ==> HasCurrent(db', u)
  }

  lemma PromotedHasCurrent(db: Db, u: UserId, next: Option<OrgId>)
    requires ChoosesOldest(db, u, next) && BelongsSomewhere(db, u)
    ensures HasCurrent(Promoted(db, u, true, next), u)
  {
    var promoted := Promoted(db, u, true, next);
    assert (next.value, u) in promoted.members;
  }

  lemma DeleteKeepsCurrent(db: Db, op: Operation, u: UserId)
    requires Inv(db) && Legit(db, op) && op.Delete? && MayDelete(db, op.actor, op.org)
    ensures KeepsCurrent(db, Apply(db, op), u)
  {
    hide Inv;
    var without := WithoutOrganisation(db, op.org, op.dropConfigs);
    SoleMemberIsCreator(db, op.actor, op.org);
    var db' := Apply(db, op);
    if HasCurrent(db, u) && BelongsSomewhere(db', u) {
      var k :| k in db.members && k.1 == u && db.members[k].isCurrent;
      if k.0 == op.org {
        PromotedHasCurrent(without, u, op.next);
      } else {
        assert k in without.members;
        assert k in db'.members && db'.members[k].isCurrent;
      }
    }
  }

  lemma RemoveKeepsCurrent(db: Db, op: Operation, u: UserId)
    requires Legit(db, op) && op.Remove? && (op.org, op.user) in db.members
    requires MayRemove(db, op.actor, op.org, op.user)
    ensures KeepsCurrent(db, Apply(db, op), u)
  {
    hide MayRemove, ChoosesOldest, Promoted;
    var without := WithoutMember(WithoutAccess(db, op.org, op.user), op.org, op.user);
    var wasCurrent := WasCurrent(db, op.org, op.user);
    PromotedGrows(without, op.user, wasCurrent, op.next);
    if HasCurrent(db, u) && BelongsSomewhere(Apply(db, op), u) {
      var k :| k in db.members && k.1 == u && db.members[k].isCurrent;
      if k == (op.org, op.user) {
        PromotedHasCurrent(without, u, op.next);
      } else {
        assert k in without.members;
      }
    }
  }

  /** Promoting a membership changes nothing but its being current. */
  lemma PromotedGrows(db: Db, u: UserId, wasCurrent: bool, next: Option<OrgId>)
    ensures Grows(db, Promoted(db, u, wasCurrent, next))
    ensures Promoted(db, u, wasCurrent, next).members.Keys == db.members.Keys
    ensures Promoted(db, u, wasCurrent, next).organisations == db.organisations
  {
  }

  lemma SetCurrentKeepsCurrent(db: Db, actor: UserId, o: OrgId, u: UserId)
    ensures KeepsCurrent(db, Apply(db, SetCurrent(actor, o)), u)
  {
    var db' := Apply(db, SetCurrent(actor, o));
    if HasCurrent(db, u) && (o, actor) in db.members {
      var k :| k in db.members && k.1 == u && db.members[k].isCurrent;
      assert u != actor ==> k in db'.members && db'.members[k].isCurrent;
      assert (o, actor) in db'.members && db'.members[(o, actor)].isCurrent;
    }
  }

  lemma GrowingKeepsCurrent(db: Db, db': Db, u: UserId)
    requires Grows(db, db')
    ensures KeepsCurrent(db, db', u)
  {
    if k :| k in db.members && k.1 == u && db.members[k].isCurrent {
      assert k in db'.members && db'.members[k].isCurrent;
    }
  }

  /**
   Current organisation: a user who had a current organisation and still belongs to any after the
   operation has one afterwards. With `OneCurrent`, which every operation keeps, it is exactly one.
   */
  lemma CurrentSurvives(db: Db, op: Operation, u: UserId)
    requires Inv(db) && Legit(db, op)
    ensures KeepsCurrent(db, Apply(db, op), u)
  {
    hide Inv;
    var db' := Apply(db, op);
    match op
    case SetCurrent(actor, o) => SetCurrentKeepsCurrent(db, actor, o, u);
    case Delete(actor, o, _, _) =>
      if MayDelete(db, actor, o) {
        DeleteKeepsCurrent(db, op, u);
      }
    case Remove(actor, o, member, _) =>
      if MayRemove(db, actor, o, member) && (o, member) in db.members {
        RemoveKeepsCurrent(db, op, u);
      }
    case UpdateRole(_, _, _, _) =>
      if k :| k in db.members && k.1 == u && db.members[k].isCurrent {
        assert k in db'.members && db'.members[k].isCurrent;
      }
    case _ =>
      OthersGrow(db, op);
      GrowingKeepsCurrent(db, db', u);
  }

  ghost predicate IsAdmin(db: Db, o: OrgId, u: UserId) {
    (o, u) in db.members && db.members[(o, u)].role == Admin
  }

  lemma RemovedAdmins(db: Db, op: Operation, o: OrgId, admin: UserId)
    requires OwnerIsCreator(db) && op.Remove? && IsAdmin(db, o, admin)
    ensures
      || IsAdmin(Apply(db, op), o, admin)
      || (op.org == o && op.user == admin && (op.actor == admin || op.actor == db.organisations[o].createdByUserId))
  {
    hide Promoted;
    if MayRemove(db, op.actor, op.org, op.user) && (op.org, op.user) in db.members {
      var without := WithoutMember(WithoutAccess(db, op.org, op.user), op.org, op.user);
      PromotedGrows(without, op.user, WasCurrent(db, op.org, op.user), op.next);
      if (o, admin) == (op.org, op.user) && op.actor != admin {
        assert IsAdminOrOwner(db, o, admin);
        assert db.members[(o, op.actor)].role == Owner;
      }
    }
  }

  lemma DeletedAdmins(db: Db, op: Operation, o: OrgId, admin: UserId)
    requires op.Delete? && IsAdmin(db, o, admin) && o in Apply(db, op).organisations
    ensures IsAdmin(Apply(db, op), o, admin)
  {
    hide Promoted, MayDelete;
    if MayDelete(db, op.actor, op.org) {
      var without := WithoutOrganisation(db, op.org, op.dropConfigs);
      PromotedGrows(without, op.actor, WasCurrent(db, op.org, op.actor), op.next);
    }
  }

  lemma DemotedAdmins(db: Db, op: Operation, o: OrgId, admin: UserId)
    requires OwnerIsCreator(db) && op.UpdateRole? && IsAdmin(db, o, admin)
    ensures
      || IsAdmin(Apply(db, op), o, admin)
      || (op.org == o && op.user == admin && op.actor == db.organisations[o].createdByUserId)
  {
  }

  /**
   Authority: while an organisation exists, an admin's membership disappears or loses its role only by
   the owner's operation, or by the admin leaving.
   */
  lemma AdminsFallOnlyByOwnerOrLeaving(db: Db, op: Operation, o: OrgId, admin: UserId)
    requires Inv(db) && Legit(db, op)
    requires IsAdmin(db, o, admin) && o in Apply(db, op).organisations
    ensures
      || IsAdmin(Apply(db, op), o, admin)
      || (op.Remove? && op.org == o && op.user == admin == op.actor)
      || ((op.Remove? || op.UpdateRole?) && op.org == o && op.user == admin
          && op.actor == db.organisations[o].createdByUserId)
  {
    match op
    case SetCurrent(_, _) =>
    case Delete(_, _, _, _) => DeletedAdmins(db, op, o, admin);
    case Remove(_, _, _, _) => RemovedAdmins(db, op, o, admin);
    case UpdateRole(_, _, _, _) => DemotedAdmins(db, op, o, admin);
    case _ => OthersGrow(db, op);
  }

  // ---------- Runs ----------

  ghost predicate Leads(db: Db, ops: seq<Operation>, db': Db)
    decreases |ops|
  {
    if ops == [] then db == db' else Legit(db, ops[0]) && Leads(Apply(db, ops[0]), ops[1..], db')
  }

  /** The user belongs to some organisation in every state of the run. */
  predicate AlwaysBelongs(db: Db, ops: seq<Operation>, u: UserId)
    decreases |ops|
  {
    BelongsSomewhere(db, u) && (ops == [] || AlwaysBelongs(Apply(db, ops[0]), ops[1..], u))
  }

  /**
   Over every run of the operations, from tables that satisfy the invariants: each organisation has
   exactly one owner membership and it is its creator's; nobody has two current organisations, and a
   user who had one and never belonged nowhere still has one; and every access row to a config of an
   organisation belongs to one of its members.
   */
  lemma {:induction false} EveryRun(db: Db, ops: seq<Operation>, db': Db)
    requires Inv(db) && Leads(db, ops, db')
    ensures Inv(db')
    ensures forall u | HasCurrent(db, u) && AlwaysBelongs(db, ops, u) :: HasCurrent(db', u)
    decreases |ops|
  {
    if ops != [] {
      var next := Apply(db, ops[0]);
      OperationKeepsInv(db, ops[0]);
      EveryRun(next, ops[1..], db');
      forall u | HasCurrent(db, u) && AlwaysBelongs(db, ops, u)
        ensures HasCurrent(db', u)
      {
        CurrentSurvives(db, ops[0], u);
        assert AlwaysBelongs(next, ops[1..], u);
        assert BelongsSomewhere(next, u);
      }
    }
  }
}
