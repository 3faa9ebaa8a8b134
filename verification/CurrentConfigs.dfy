/**
 Over runs of the membership operations, whether each user has at most one current config in each
 organisation: every operation keeps that, but for one that moves several current configs at once.
 */
module CurrentConfigs {
  import opened Wrappers
  import opened OrganisationDb
  import opened OrganisationRuns

  ghost predicate OneCurrentEach(db: Db) {
    forall o: OrgId, u: UserId :: OneCurrentConfig(db, o, u)
  }

  /** No user has two of these configs as current ones. */
  ghost predicate OneCurrentAmong(db: Db, cs: set<ConfigId>) {
    forall j <- db.access, k <- db.access ::
      j.1 == k.1 && j.0 in cs && k.0 in cs && db.access[j].isCurrent && db.access[k].isCurrent ==> j == k
  }

  /** Every access row, with its flag, and every config of an organisation was there before. */
  ghost predicate OnlyFewer(db: Db, db': Db) {
    && (forall k <- db'.access :: k in db.access && db'.access[k].isCurrent == db.access[k].isCurrent)
    && (forall c, o :: IsConfigOf(db', c, o) ==> IsConfigOf(db, c, o))
  }

  lemma FewerKeeps(db: Db, db': Db)
    requires OneCurrentEach(db) && OnlyFewer(db, db')
    ensures OneCurrentEach(db')
  {
    forall o: OrgId, u: UserId
      ensures OneCurrentConfig(db', o, u)
    {
      assert OneCurrentConfig(db, o, u);
    }
  }

  lemma SharedKeeps(db: Db, o: OrgId, u: UserId, cs: seq<ConfigId>)
    requires ListsConfigs(db, o, cs)
    ensures OneCurrentEach(Shared(db, o, u, cs)) <==> OneCurrentEach(db)
    ensures Shared(db, o, u, cs).configs == db.configs
  {
    var db' := Shared(db, o, u, cs);
    BulkSharing(db, o, u, cs);
    var _ := BulkSharingCurrent(db, o, u, cs);
    if OneCurrentEach(db) {
      forall p: OrgId, v: UserId
        ensures OneCurrentConfig(db', p, v)
      {
        assert OneCurrentConfig(db, p, v);
        assert p != o || v != u ==> forall c :: IsConfigOf(db, c, p) && (c, v) in db'.access ==> (c, v) in db.access;
      }
    }
    if OneCurrentEach(db') {
      FewerKeeps(db', db);
    }
  }

  lemma JoinedAndSharedKeeps(db: Db, o: OrgId, u: UserId, cs: seq<ConfigId>)
    requires ListsConfigs(db, o, cs) && OneCurrentEach(db)
    ensures OneCurrentEach(JoinedAndShared(db, o, u, cs)) && JoinedAndShared(db, o, u, cs).configs == db.configs
  {
    hide ListsConfigs, OneCurrentEach;
    var joined := Joined(db, o, u, Member, false);
    FewerKeeps(db, joined);
    SameConfigsSameLists(db, joined, o, cs);
    SharedKeeps(joined, o, u, cs);
  }

  lemma AdmittedKeeps(db: Db, o: OrgId, u: UserId, cs: seq<ConfigId>)
    requires ListsConfigs(db, o, cs)
    ensures OneCurrentEach(Admitted(db, o, u, cs)) <==> OneCurrentEach(db)
    ensures Admitted(db, o, u, cs).configs == db.configs
  {
    hide ListsConfigs, OneCurrentEach, Shared;
    var joined :=
      if (o, u) !in db.members then Joined(db, o, u, Member, !HasCurrent(db, u))
      else if !HasCurrent(db, u) then MadeCurrent(db, o, u)
      else db;
    SameConfigsSameLists(db, joined, o, cs);
    SharedKeeps(joined, o, u, cs);
    if OneCurrentEach(db) {
      FewerKeeps(db, joined);
    }
    if OneCurrentEach(joined) {
      FewerKeeps(joined, db);
    }
  }

  lemma {:induction false} AdmittedAllKeeps(db: Db, o: OrgId, admissions: seq<Admission>)
    requires forall i | 0 <= i < |admissions| :: ListsConfigs(db, o, admissions[i].configs)
    ensures OneCurrentEach(AdmittedAll(db, o, admissions)) <==> OneCurrentEach(db)
    ensures AdmittedAll(db, o, admissions).configs == db.configs
  {
    hide ListsConfigs, OneCurrentEach, Admitted;
    if admissions != [] {
      var before, last := admissions[..|admissions| - 1], admissions[|admissions| - 1];
      AdmittedAllKeeps(db, o, before);
      SameConfigsSameLists(db, AdmittedAll(db, o, before), o, last.configs);
      AdmittedKeeps(AdmittedAll(db, o, before), o, last.user, last.configs);
    }
  }

  /**
   Moving orphans into a new organisation leaves one current config exactly when they hold at most one for
   each user.
   */
  lemma MovedKeepsExactlyWhen(db: Db, o: OrgId, u: UserId)
    requires OneCurrentEach(db) && forall c :: !IsConfigOf(db, c, o)
    ensures OneCurrentEach(Moved(db, o, Orphans(db, u))) <==> OneCurrentAmong(db, Orphans(db, u))
  {
    var orphans := Orphans(db, u);
    var moved := Moved(db, o, orphans);
    forall c: ConfigId
      ensures IsConfigOf(moved, c, o) <==> c in orphans
    {
      assert !IsConfigOf(db, c, o);
    }
    if OneCurrentAmong(db, orphans) {
      forall p: OrgId, v: UserId
        ensures OneCurrentConfig(moved, p, v)
      {
        assert OneCurrentConfig(db, p, v);
        assert p != o ==> forall c :: IsConfigOf(moved, c, p) ==> IsConfigOf(db, c, p);
      }
    }
    if OneCurrentEach(moved) {
      forall j <- db.access, k <- db.access |
        j.1 == k.1 && j.0 in orphans && k.0 in orphans && db.access[j].isCurrent && db.access[k].isCurrent
        ensures j == k
      {
        assert OneCurrentConfig(moved, o, j.1);
        assert IsConfigOf(moved, j.0, o) && IsConfigOf(moved, k.0, o);
        assert j == (j.0, j.1) && k == (k.0, j.1);
      }
    }
  }

  lemma {:induction false} InvitationsMovedKeeps(db: Db, u: UserId, email: Email, joins: seq<Join>)
    requires OneCurrentEach(db)
    requires forall i | 0 <= i < |joins| :: ListsConfigs(db, joins[i].org, joins[i].configs)
    ensures OneCurrentEach(InvitationsMoved(db, u, email, joins))
    decreases |joins|
  {
    hide ListsConfigs, OneCurrentEach, JoinedAndShared;
    if joins != [] && (joins[0].org, u) !in db.members {
      var joined := JoinedAndShared(db, joins[0].org, u, joins[0].configs);
      JoinedAndSharedKeeps(db, joins[0].org, u, joins[0].configs);
      var next := WithoutInvitation(joined, joins[0].org, email);
      FewerKeeps(joined, next);
      forall i | 0 <= i < |joins| - 1
        ensures ListsConfigs(next, joins[1..][i].org, joins[1..][i].configs)
      {
        assert joins[1..][i] == joins[i + 1];
        SameConfigsSameLists(db, next, joins[i + 1].org, joins[i + 1].configs);
      }
      InvitationsMovedKeeps(next, u, email, joins[1..]);
    }
  }

  /** The operation creates an organisation and moves orphans into it of which some user has two as current ones. */
  ghost predicate MovesTwoCurrent(db: Db, op: Operation) {
    op.Create? && Migrates(db, op.org, op.actor) && !OneCurrentAmong(db, Orphans(db, op.actor))
  }

  lemma CreateKeepsExactlyWhen(db: Db, op: Operation)
    requires Inv(db) && Legit(db, op) && OneCurrentEach(db) && op.Create?
    ensures OneCurrentEach(Apply(db, op)) <==> !MovesTwoCurrent(db, op)
  {
    hide OneCurrentEach, NamesUnique, OneCurrentAmong, AdmittedAll, ListsConfigs;
    var o, actor := op.org, op.actor;
    var created := Created(db, actor, o, op.name, op.slug);
    FewerKeeps(db, created);
    assert Orphans(created, actor) == Orphans(db, actor);
    SameNames(Moved(created, o, Orphans(db, actor)), Moved(db, o, Orphans(db, actor)));
    if Migrates(created, o, actor) {
      MovedKeepsExactlyWhen(created, o, actor);
      SameRows(created, db, Orphans(db, actor));
      AdmittedAllKeeps(Moved(created, o, Orphans(created, actor)), o, op.admissions);
    }
  }

  lemma SameNames(db: Db, db': Db)
    requires db.configs == db'.configs
    ensures NamesUnique(db) <==> NamesUnique(db')
  {
  }

  lemma SameRows(db: Db, db': Db, cs: set<ConfigId>)
    requires db.access == db'.access
    ensures OneCurrentAmong(db, cs) <==> OneCurrentAmong(db', cs)
  {
  }

  lemma WithoutOrganisationIsFewer(db: Db, o: OrgId, dropConfigs: bool)
    ensures OnlyFewer(db, WithoutOrganisation(db, o, dropConfigs))
  {
  }

  lemma WithoutAccessIsFewer(db: Db, o: OrgId, u: UserId)
    ensures OnlyFewer(db, WithoutAccess(db, o, u)) && OnlyFewer(db, db)
  {
  }

  lemma SameRowsAreFewer(db: Db, a: Db, b: Db)
    requires OnlyFewer(db, a) && a.access == b.access && a.configs == b.configs
    ensures OnlyFewer(db, b)
  {
  }

  /** Operations that share nothing. */
  lemma NotSharingIsFewer(db: Db, op: Operation)
    requires op.SetCurrent? || op.Delete? || op.Decline? || op.Cancel? || op.Remove? || op.UpdateRole?
    ensures OnlyFewer(db, Apply(db, op))
  {
    hide OnlyFewer, MayRemove, MayUpdateRole, MayDelete, WithoutOrganisation, WithoutAccess, HasCurrent, Owns,
        IsAdminOrOwner;
    WithoutAccessIsFewer(db, op.org, op.actor);
    match op
    case Delete(actor, o, dropConfigs, next) =>
      WithoutOrganisationIsFewer(db, o, dropConfigs);
      if MayDelete(db, actor, o) {
        SameRowsAreFewer(db, WithoutOrganisation(db, o, dropConfigs), Apply(db, op));
      }
    case Remove(actor, o, u, next) =>
      WithoutAccessIsFewer(db, o, u);
      if MayRemove(db, actor, o, u) {
        SameRowsAreFewer(db, WithoutAccess(db, o, u), Apply(db, op));
      }
    case _ => SameRowsAreFewer(db, db, Apply(db, op));
  }

  lemma SharingKeeps(db: Db, op: Operation)
    requires Legit(db, op) && OneCurrentEach(db)
    requires op.Invite? || op.Accept? || op.MoveInvitations?
    ensures OneCurrentEach(Apply(db, op))
  {
    hide OneCurrentEach, ListsConfigs, JoinedAndShared, InvitationsMoved, Finds, IsAdminOrOwner, MayAccept;
    match op
    case Invite(actor, o, email, invitee, configs) =>
      if invitee.Some? {
        JoinedAndSharedKeeps(db, o, invitee.value, configs);
      } else {
        FewerKeeps(db, Apply(db, op));
      }
    case Accept(actor, o, email, configs) =>
      JoinedAndSharedKeeps(db, o, actor, configs);
      var joined := JoinedAndShared(db, o, actor, configs);
      FewerKeeps(joined, WithoutInvitation(joined, o, email));
    case MoveInvitations(actor, email, joins) => InvitationsMovedKeeps(db, actor, email, joins);
  }

  /**
   An operation keeps at most one current config for each user and organisation if and only if it does not
   create an organisation for a user whose orphaned configs, which it moves, hold two current ones of a user.
   */
  lemma OneCurrentKeptExactlyWhen(db: Db, op: Operation)
    requires Inv(db) && Legit(db, op) && OneCurrentEach(db)
    ensures OneCurrentEach(Apply(db, op)) <==> !MovesTwoCurrent(db, op)
  {
    hide Inv, Legit, OneCurrentEach, OnlyFewer;
    if op.Create? {
      CreateKeepsExactlyWhen(db, op);
    } else if op.Invite? || op.Accept? || op.MoveInvitations? {
      SharingKeeps(db, op);
    } else {
      NotSharingIsFewer(db, op);
      FewerKeeps(db, Apply(db, op));
    }
  }

  /** No operation of the run moves two current configs of a user at once. */
  ghost predicate NeverMovesTwo(db: Db, ops: seq<Operation>)
    decreases |ops|
  {
    ops == [] || (!MovesTwoCurrent(db, ops[0]) && NeverMovesTwo(Apply(db, ops[0]), ops[1..]))
  }

  /** Over every such run each user has at most one current config in each organisation. */
  lemma {:induction false} EveryRunKeepsOneCurrent(db: Db, ops: seq<Operation>, db': Db)
    requires Inv(db) && OneCurrentEach(db) && Leads(db, ops, db') && NeverMovesTwo(db, ops)
    ensures OneCurrentEach(db')
    decreases |ops|
  {
    if ops != [] {
      OperationKeepsInv(db, ops[0]);
      OneCurrentKeptExactlyWhen(db, ops[0]);
      EveryRunKeepsOneCurrent(Apply(db, ops[0]), ops[1..], db');
    }
  }

  // ---------- A run that moves two ----------

  const FULL := Access(true, true, true, true)

  /** User 1 owns organisation 20 alone, and has a current config in it and another that belongs to no organisation. */
  const ONE_OWNED := Db(
    map[1 := "a@b.c"],
    map[20 := Organisation("twenty", "twenty", 1)],
    map[(20, 1) := Membership(Owner, true, 1)],
    map[],
    map[5 := Config("five", None, 2), 6 := Config("six", Some(20), 3)],
    map[(5, 1) := FULL, (6, 1) := FULL],
    4)

  const NONE_OWNED := ONE_OWNED.(
    organisations := map[],
    members := map[],
    configs := map[5 := Config("five", None, 2), 6 := Config("six", None, 3)])

  lemma OneMayGo()
    ensures MayDelete(ONE_OWNED, 1, 20)
  {
    assert (set k <- ONE_OWNED.members | k.0 == 20) == {(20, 1)};
  }

  lemma OneDetached()
    ensures WithoutOrganisation(ONE_OWNED, 20, false) == NONE_OWNED
  {
    var without := WithoutOrganisation(ONE_OWNED, 20, false);
    assert without.members == map[] && without.organisations == map[];
    assert without.configs == NONE_OWNED.configs;
    assert without.access == ONE_OWNED.access && without.invitations == ONE_OWNED.invitations;
  }

  lemma OneDeleted()
    ensures Apply(ONE_OWNED, Delete(1, 20, false, None)) == NONE_OWNED
    ensures Legit(ONE_OWNED, Delete(1, 20, false, None))
  {
    hide WithoutOrganisation, MayDelete;
    OneMayGo();
    OneDetached();
  }

  lemma CreateMovesTwo()
    ensures Legit(NONE_OWNED, Create(1, 30, "thirty", "thirty", []))
    ensures MovesTwoCurrent(NONE_OWNED, Create(1, 30, "thirty", "thirty", []))
  {
    var created := Created(NONE_OWNED, 1, 30, "thirty", "thirty");
    assert (5, 1) in NONE_OWNED.access && (6, 1) in NONE_OWNED.access;
    assert 5 in Orphans(NONE_OWNED, 1) && 6 in Orphans(NONE_OWNED, 1);
    assert SharersOf(created, 1, Orphans(created, 1)) == {};
    assert "five"[0] == 'f' && "six"[0] == 's';
  }

  /**
   Deleting an organisation whose current config the schema detaches, while another orphan is current,
   and then creating a new one, leaves its creator with two current configs in it.
   */
  lemma DetachedConfigsCollide()
    ensures
      var create := Create(1, 30, "thirty", "thirty", []);
      && Inv(ONE_OWNED) && OneCurrentEach(ONE_OWNED)
      && Leads(ONE_OWNED, [Delete(1, 20, false, None), create], Apply(NONE_OWNED, create))
      && !OneCurrentEach(Apply(NONE_OWNED, create))
  {
    hide Apply, Legit, Inv, OneCurrentEach, MovesTwoCurrent, ONE_OWNED, NONE_OWNED;
    var delete, create := Delete(1, 20, false, None), Create(1, 30, "thirty", "thirty", []);
    OneOwnedIsSound();
    OneDeleted();
    CreateMovesTwo();
    DeleteMovesNone(ONE_OWNED, delete);
    OperationKeepsInv(ONE_OWNED, delete);
    OneCurrentKeptExactlyWhen(ONE_OWNED, delete);
    OneCurrentKeptExactlyWhen(NONE_OWNED, create);
    assert [create][1..] == [] && [delete, create][1..] == [create];
    assert Leads(NONE_OWNED, [create], Apply(NONE_OWNED, create));
  }

  lemma DeleteMovesNone(db: Db, op: Operation)
    requires op.Delete?
    ensures !MovesTwoCurrent(db, op)
  {
  }

  lemma OneOwnedIsSound()
    ensures Inv(ONE_OWNED) && OneCurrentEach(ONE_OWNED)
  {
  }
}
