/**
 The membership library, with its sequences of table reads and writes. Each method is proved against
 the operation of `OrganisationDb` it performs; the choices the database made come back as a ghost.
 */
module Organisations {
  import opened Wrappers
  import opened Sets
  import opened OrganisationDb

  datatype Outcome = Success | Failure(message: string)

  /** Stands for the actor of an operation that nobody signed in for. */
  const NOBODY: UserId := 0

  class Store {
    var addresses: map<UserId, string>
    var organisations: map<OrgId, Organisation>
    var members: map<(OrgId, UserId), Membership>
    var invitations: map<(OrgId, Email), UserId>
    var configs: map<ConfigId, Config>
    var access: map<(ConfigId, UserId), Access>
    var clock: nat

    constructor (db: Db)
      ensures Tables() == db
    {
      addresses, organisations, members := db.addresses, db.organisations, db.members;
      invitations, configs, access, clock := db.invitations, db.configs, db.access, db.clock;
    }

    function Tables(): Db
      reads this
    {
      Db(addresses, organisations, members, invitations, configs, access, clock)
    }

    // ---------- Table reads and writes ----------

    /** A new membership row, stamped with the time. */
    method CreateMember(o: OrgId, u: UserId, role: Role, isCurrent: bool)
      modifies this`members, this`clock
      ensures Tables() == Joined(old(Tables()), o, u, role, isCurrent)
    {
      members := members[(o, u) := Membership(role, isCurrent, clock)];
      clock := clock + 1;
    }

    /** The configs of an organisation, oldest first. */
    method FindConfigs(o: OrgId) returns (cs: seq<ConfigId>)
      ensures ListsConfigs(Tables(), o, cs)
    {
      cs := [];
      var rest := set c <- configs | configs[c].organisationId == Some(o);
      while rest != {}
        invariant forall c <- rest :: IsConfigOf(Tables(), c, o) && c !in cs
        invariant forall i | 0 <= i < |cs| :: IsConfigOf(Tables(), cs[i], o)
        invariant forall c <- configs :: IsConfigOf(Tables(), c, o) ==> c in cs || c in rest
        invariant forall i, j | 0 <= i < j < |cs| ::
                    cs[i] != cs[j] && configs[cs[i]].createdAt <= configs[cs[j]].createdAt
        invariant forall i | 0 <= i < |cs| :: forall c <- rest :: configs[cs[i]].createdAt <= configs[c].createdAt
        decreases rest
      {
        ghost var _ := OldestExists(map c <- configs :: configs[c].createdAt, rest);
        var c :| c in rest && forall d <- rest :: configs[c].createdAt <= configs[d].createdAt;
        cs := cs + [c];
        rest := rest - {c};
      }
    }

    /** Makes the user's oldest remaining membership current, if there is one. */
    method PromoteOldest(u: UserId) returns (ghost next: Option<OrgId>)
      modifies this`members
      ensures ChoosesOldest(old(Tables()), u, next)
      ensures Tables() == Promoted(old(Tables()), u, true, next)
    {
      next := None;
      var remaining := set k <- members | k.1 == u;
      if remaining != {} {
        ghost var _ := OldestExists(map k <- members :: members[k].createdAt, remaining);
        var k :| k in remaining && forall j <- remaining :: members[k].createdAt <= members[j].createdAt;
        assert k == (k.0, u);
        members := members[k := members[k].(isCurrent := true)];
        next := Some(k.0);
      } else {
        assert forall k <- members :: k !in remaining;
      }
    }

    function GetRole(o: OrgId, u: UserId): Option<Role>
      reads this
    {
      if (o, u) in members then Some(members[(o, u)].role) else None
    }

    // ---------- Sharing and migration ----------

    method ShareOrganisationDatabaseConfigs(o: OrgId, u: UserId) returns (ghost cs: seq<ConfigId>)
      modifies this`access
      ensures ListsConfigs(old(Tables()), o, cs)
      ensures Tables() == Shared(old(Tables()), o, u, cs)
    {
      var databaseConfigs := FindConfigs(o);
      cs := databaseConfigs;
      if |databaseConfigs| == 0 {
        return;
      }
      var existingCurrentConfig := HasCurrentConfig(Tables(), o, u);
      var hasAssignedCurrentToNewShare := false;
      for i := 0 to |databaseConfigs|
        invariant ShareEach(access, u, cs[i..], existingCurrentConfig || hasAssignedCurrentToNewShare)
               == ShareEach(old(access), u, cs, existingCurrentConfig)
      {
        var config := databaseConfigs[i];
        assert cs[i..][0] == config && cs[i..][1..] == cs[i + 1..];
        if (config, u) !in access {
          var shouldBeCurrent := !existingCurrentConfig && !hasAssignedCurrentToNewShare;
          access := access[(config, u) := Access(shouldBeCurrent, false, false, false)];
          if shouldBeCurrent {
            hasAssignedCurrentToNewShare := true;
          }
        }
      }
    }

    /** Brings one user who shares a moved config into the organisation. */
    method AdmitSharer(o: OrgId, u: UserId) returns (ghost cs: seq<ConfigId>)
      modifies this`members, this`clock, this`access
      ensures ListsConfigs(old(Tables()), o, cs)
      ensures Tables() == Admitted(old(Tables()), o, u, cs)
    {
      var hasCurrentOrg := HasCurrent(Tables(), u);
      if (o, u) !in members {
        CreateMember(o, u, Member, !hasCurrentOrg);
      } else if !hasCurrentOrg {
        members := members[(o, u) := members[(o, u)].(isCurrent := true)];
      }
      cs := ShareOrganisationDatabaseConfigs(o, u);
    }

    /** Moves the user's orphaned configs into the organisation and admits everyone who shares them. */
    method MigrateUserConfigsToOrganisation(o: OrgId, u: UserId)
      returns (outcome: Outcome, ghost admissions: seq<Admission>)
      modifies this`members, this`clock, this`configs, this`access
      ensures Migrates(old(Tables()), o, u) ==> ListsSharers(old(Tables()), u, o, admissions)
      ensures Tables() == Migrated(old(Tables()), o, u, admissions)
      ensures outcome.Success? <==> Orphans(old(Tables()), u) == {} || Migrates(old(Tables()), o, u)
    {
      hide NamesUnique, AdmitsEach, AdmittedAll;
      admissions := [];
      var orphanedConfigIds := Orphans(Tables(), u);
      if orphanedConfigIds == {} {
        return Success, [];
      }
      ghost var moved := Moved(Tables(), o, orphanedConfigIds);
      var sharedUsers := SharersOf(Tables(), u, orphanedConfigIds);
      if !NamesUnique(Moved(Tables(), o, orphanedConfigIds)) {
        return Failure("unique constraint failed on name and organisation"), [];
      }
      configs := Moved(Tables(), o, orphanedConfigIds).configs;
      admissions := AdmitSharers(o, sharedUsers);
      return Success, admissions;
    }

    method AdmitSharers(o: OrgId, sharedUsers: set<UserId>) returns (ghost admissions: seq<Admission>)
      modifies this`members, this`clock, this`access
      ensures AdmitsEach(old(Tables()), o, admissions, sharedUsers)
      ensures Tables() == AdmittedAll(old(Tables()), o, admissions)
    {
      hide ListsConfigs, Admitted, AdmittedAll, AdmitsEach;
      ghost var moved := Tables();
      admissions := [];
      AdmitNobody(moved, o);
      var rest := sharedUsers;
      assert sharedUsers - rest == {};
      while rest != {}
        invariant rest <= sharedUsers
        invariant Tables() == AdmittedAll(moved, o, admissions)
        invariant AdmitsEach(moved, o, admissions, sharedUsers - rest)
        decreases rest
      {
        ghost var _ := SomeMember(rest);
        var sharedUserId :| sharedUserId in rest;
        ghost var before := Tables();
        ghost var cs := AdmitSharer(o, sharedUserId);
        SameConfigsSameLists(before, moved, o, cs);
        AdmitOneMore(moved, o, admissions, sharedUsers - rest, sharedUserId, cs);
        assert sharedUsers - (rest - {sharedUserId}) == sharedUsers - rest + {sharedUserId};
        rest := rest - {sharedUserId};
        admissions := admissions + [Admission(sharedUserId, cs)];
      }
      assert sharedUsers - rest == sharedUsers;
    }

    // ---------- Operations ----------

    /** `slug` is the unique slug found, if the retries found one; `o` the fresh id of the new row. */
    method CreateOrganisation(user: Option<UserId>, o: OrgId, name: string, slug: Option<string>)
      returns (outcome: Outcome, ghost op: Operation)
      requires o !in organisations
      modifies this
      ensures user.None? || slug.None? ==> outcome.Failure? && Tables() == old(Tables())
      ensures user.Some? && slug.Some? ==>
                && op.Create? && op.actor == user.value && op.org == o && op.name == name && op.slug == slug.value
                && Legit(old(Tables()), op) && Tables() == Apply(old(Tables()), op)
                && (outcome.Success? <==> Succeeds(old(Tables()), op))
    {
      op := Create(user.GetOr(NOBODY), o, name, "", []);
      if user.None? {
        return Failure("unauthorized user"), op;
      }
      if slug.None? {
        return Failure("unable to generate a unique organisation slug"), op;
      }
      organisations := organisations[o := Organisation(name, slug.value, user.value)];
      CreateMember(o, user.value, Owner, false);
      assert Tables() == Created(old(Tables()), user.value, o, name, slug.value);
      ghost var admissions;
      outcome, admissions := MigrateUserConfigsToOrganisation(o, user.value);
      op := Create(user.value, o, name, slug.value, admissions);
    }

    method SetCurrentOrganisation(user: Option<UserId>, o: OrgId) returns (outcome: Outcome)
      modifies this`members
      ensures user.None? ==> outcome.Failure? && Tables() == old(Tables())
      ensures user.Some? ==>
                var op := SetCurrent(user.value, o);
                Tables() == Apply(old(Tables()), op) && (outcome.Success? <==> Succeeds(old(Tables()), op))
    {
      if user.None? {
        return Failure("unauthorized user");
      }
      var u := user.value;
      if (o, u) !in members {
        return Failure("not a member of the organisation");
      }
      members := map k <- members ::
        if k.1 == u && members[k].isCurrent then members[k].(isCurrent := false) else members[k];
      members := members[(o, u) := members[(o, u)].(isCurrent := true)];
      return Success;
    }

    /**
     Deletes an organisation of the caller's with no other member; `dropConfigs` says what the schema does
     to its configs.
     */
    method DeleteOrganisation(user: Option<UserId>, o: OrgId, dropConfigs: bool)
      returns (outcome: Outcome, ghost op: Operation)
      modifies this
      ensures user.None? ==> outcome.Failure? && Tables() == old(Tables())
      ensures user.Some? ==>
                && op.Delete? && op.actor == user.value && op.org == o && op.dropConfigs == dropConfigs
                && Legit(old(Tables()), op) && Tables() == Apply(old(Tables()), op)
                && (outcome.Success? <==> Succeeds(old(Tables()), op))
    {
      op := Delete(user.GetOr(NOBODY), o, dropConfigs, None);
      if user.None? {
        return Failure("unauthorized user"), op;
      }
      var u := user.value;
      ghost var next := AnOldest(WithoutOrganisation(Tables(), o, dropConfigs), u);
      op := Delete(u, o, dropConfigs, next);
      if o !in organisations {
        return Failure("organisation not found"), op;
      }
      if organisations[o].createdByUserId != u {
        return Failure("only the creator can delete the organisation"), op;
      }
      if MemberCount(Tables(), o) > 1 {
        return Failure("cannot delete an organisation with members"), op;
      }
      var wasCurrentOrg := WasCurrent(Tables(), o, u);
      DeleteOrganisationRow(o, dropConfigs);
      if wasCurrentOrg {
        next := PromoteOldest(u);
        op := Delete(u, o, dropConfigs, next);
      }
      return Success, op;
    }

    /** The row goes, and with it what the schema cascades to. */
    method DeleteOrganisationRow(o: OrgId, dropConfigs: bool)
      modifies this
      ensures Tables() == WithoutOrganisation(old(Tables()), o, dropConfigs)
    {
      var without := WithoutOrganisation(Tables(), o, dropConfigs);
      organisations, members, invitations := without.organisations, without.members, without.invitations;
      configs, access := without.configs, without.access;
    }

    /**
     `found` is the user the lookup of the normalized address returns. The first check that fails names
     the refusal.
     */
    method InviteUserToOrganisation(user: Option<UserId>, o: OrgId, address: string, isEmail: string -> bool,
        found: Option<UserId>)
      returns (outcome: Outcome, ghost op: Operation)
      requires Finds(Tables(), Normal(address), found)
      modifies this`members, this`clock, this`access, this`invitations
      ensures user.None? || Normal(address).text == "" || !isEmail(Normal(address).text) ==>
                outcome.Failure? && Tables() == old(Tables())
      ensures user.Some? && Normal(address).text != "" && isEmail(Normal(address).text) ==>
                && op.Invite? && op.actor == user.value && op.org == o && op.email == Normal(address)
                    && op.invitee == found
                && Legit(old(Tables()), op) && Tables() == Apply(old(Tables()), op)
                && (outcome.Success? <==> Succeeds(old(Tables()), op))
      ensures outcome == match InviteRefusal(old(Tables()), user, o, Normal(address), isEmail, found)
                         case Some(message) => Failure(message)
                         case None => Success
    {
      var normalizedEmail := Normal(address);
      ghost var cs := FindConfigs(o);
      op := Invite(user.GetOr(NOBODY), o, normalizedEmail, found, cs);
      if user.None? {
        return Failure("unauthorized user"), op;
      }
      if !IsAdminOrOwner(Tables(), o, user.value) {
        return Failure("only an admin can invite"), op;
      }
      if normalizedEmail.text == "" {
        return Failure("email cannot be empty"), op;
      }
      if !isEmail(normalizedEmail.text) {
        return Failure("invalid email format"), op;
      }
      if found.Some? {
        if (o, found.value) in members {
          return Failure("user is already a member"), op;
        }
        CreateMember(o, found.value, Member, false);
        cs := ShareOrganisationDatabaseConfigs(o, found.value);
        op := Invite(user.value, o, normalizedEmail, found, cs);
        return Success, op;
      }
      if (o, normalizedEmail) in invitations {
        return Failure("user is already invited"), op;
      }
      invitations := invitations[(o, normalizedEmail) := user.value];
      return Success, op;
    }

    /** An invitation is named by its organisation and email. */
    method AcceptInvitation(user: Option<UserId>, o: OrgId, email: Email)
      returns (outcome: Outcome, ghost op: Operation)
      requires user.Some? ==> user.value in addresses
      modifies this`members, this`clock, this`access, this`invitations
      ensures user.None? ==> outcome.Failure? && Tables() == old(Tables())
      ensures user.Some? ==>
                && op.Accept? && op.actor == user.value && op.org == o && op.email == email
                && Legit(old(Tables()), op) && Tables() == Apply(old(Tables()), op)
                && (outcome.Success? <==> Succeeds(old(Tables()), op))
      ensures outcome.Success? ==>
                user.Some? && Normal(addresses[user.value]) == email && (o, email) in old(invitations)
    {
      ghost var cs := FindConfigs(o);
      op := Accept(user.GetOr(NOBODY), o, email, cs);
      if user.None? {
        return Failure("unauthorized user"), op;
      }
      if (o, email) !in invitations {
        return Failure("invitation not found"), op;
      }
      if Normal(addresses[user.value]) != email {
        return Failure("invitation is not for you"), op;
      }
      if (o, user.value) in members {
        return Failure("unique constraint failed on organisation and user"), op;
      }
      cs := JoinByInvitation(o, user.value, email);
      op := Accept(user.value, o, email, cs);
      return Success, op;
    }

    /** Turns one invitation into a membership. */
    method JoinByInvitation(o: OrgId, u: UserId, email: Email) returns (ghost cs: seq<ConfigId>)
      modifies this`members, this`clock, this`access, this`invitations
      ensures ListsConfigs(old(Tables()), o, cs)
      ensures Tables() == WithoutInvitation(JoinedAndShared(old(Tables()), o, u, cs), o, email)
    {
      CreateMember(o, u, Member, false);
      ghost var joined := Tables();
      cs := ShareOrganisationDatabaseConfigs(o, u);
      SameConfigsSameLists(joined, old(Tables()), o, cs);
      invitations := invitations - {(o, email)};
    }

    /** Turns the invitations of a new user's address into memberships, one after another. */
    method MoveInvitationsToMembership(address: string, u: UserId) returns (outcome: Outcome, ghost op: Operation)
      modifies this`members, this`clock, this`access, this`invitations
      ensures op.MoveInvitations? && op.actor == u && op.email == Normal(address)
      ensures Legit(old(Tables()), op) && Tables() == Apply(old(Tables()), op)
      ensures outcome.Success? <==> Succeeds(old(Tables()), op)
    {
      hide ListsConfigs, Shared, Succeeds, Legit, JoinedAndShared, WithoutInvitation, Normal, InvitationsMoved,
          AreJoins;
      var email := Normal(address);
      ghost var db := Tables();
      ghost var joins: seq<Join> := [];
      var all := set k <- invitations | k.1 == email :: k.0;
      var rest := all;
      MoveNone(db, u, email);
      assert all - rest == {};
      while rest != {}
        invariant rest <= all
        invariant configs == db.configs
        invariant Tables() == InvitationsMoved(db, u, email, joins)
        invariant AreJoins(db, u, email, joins, all - rest)
        decreases rest
      {
        ghost var _ := SomeMember(rest);
        var o :| o in rest;
        ghost var before := Tables();
        assert (o, email) in db.invitations;
        JoinsAreOthers(db, u, email, joins, all - rest, o);
        if (o, u) in members {
          ghost var cs := FindConfigs(o);
          SameConfigsSameLists(before, db, o, cs);
          MoveOneMore(db, u, email, joins, Join(o, cs));
          op := MoveInvitations(u, email, joins + [Join(o, cs)]);
          FailedMove(db, op, joins, all - rest);
          return Failure("unique constraint failed on organisation and user"), op;
        }
        ghost var cs := JoinByInvitation(o, u, email);
        SameConfigsSameLists(before, db, o, cs);
        MoveOneMore(db, u, email, joins, Join(o, cs));
        OneMoreJoin(db, u, email, joins, all - rest, Join(o, cs));
        assert all - (rest - {o}) == all - rest + {o};
        rest := rest - {o};
        joins := joins + [Join(o, cs)];
      }
      assert all - rest == all;
      op := MoveInvitations(u, email, joins);
      CompleteMove(db, op, all);
      return Success, op;
    }

    method RemoveUserFromOrganisation(user: Option<UserId>, o: OrgId, u: UserId)
      returns (outcome: Outcome, ghost op: Operation)
      modifies this`members, this`access
      ensures user.None? ==> outcome.Failure? && Tables() == old(Tables())
      ensures user.Some? ==>
                && op.Remove? && op.actor == user.value && op.org == o && op.user == u
                && Legit(old(Tables()), op) && Tables() == Apply(old(Tables()), op)
                && (outcome.Success? <==> Succeeds(old(Tables()), op))
    {
      hide MayRemove, ChoosesOldest, Promoted;
      ghost var next := AnOldest(WithoutMember(WithoutAccess(Tables(), o, u), o, u), u);
      op := Remove(user.GetOr(NOBODY), o, u, next);
      if user.None? {
        return Failure("unauthorized user"), op;
      }
      var refusal := RemovalRefusal(user.value, o, u);
      if refusal.Some? {
        return Failure(refusal.value), op;
      }
      var found;
      found, next := RemoveMember(o, u);
      op := Remove(user.value, o, u, next);
      return if found then Success else Failure("record to delete does not exist"), op;
    }

    /** Removes the user's access rows, then the membership, which fails when there is none, and promotes another. */
    method RemoveMember(o: OrgId, u: UserId) returns (found: bool, ghost next: Option<OrgId>)
      modifies this`members, this`access
      ensures found <==> (o, u) in old(members)
      ensures ChoosesOldest(WithoutMember(WithoutAccess(old(Tables()), o, u), o, u), u, next)
      ensures Tables() ==
                if found
                then Promoted(WithoutMember(WithoutAccess(old(Tables()), o, u), o, u), u,
                    WasCurrent(old(Tables()), o, u), next)
                else WithoutAccess(old(Tables()), o, u)
    {
      hide ChoosesOldest;
      next := AnOldest(WithoutMember(WithoutAccess(Tables(), o, u), o, u), u);
      var wasCurrentOrg := WasCurrent(Tables(), o, u);
      access := WithoutAccess(Tables(), o, u).access;
      if (o, u) !in members {
        return false, next;
      }
      members := members - {(o, u)};
      if wasCurrentOrg {
        next := PromoteOldest(u);
      }
      return true, next;
    }

    /** The error with which a removal is refused, if it is. */
    method RemovalRefusal(actor: UserId, o: OrgId, u: UserId) returns (refusal: Option<string>)
      ensures refusal.None? <==> MayRemove(Tables(), actor, o, u)
    {
      if o !in organisations {
        return Some("organisation not found");
      }
      if u == actor {
        if u == organisations[o].createdByUserId {
          var memberCount := MemberCount(Tables(), o);
          return Some(if memberCount > 1 then "cannot leave with members" else "creator cannot leave alone");
        }
      } else {
        var currentUserRole := GetRole(o, actor);
        if currentUserRole.None? {
          return Some("not a member of the organisation");
        }
        var targetUserRole := GetRole(o, u);
        if !(currentUserRole.value.Owner? || currentUserRole.value.Admin?) {
          return Some("only an admin can remove members");
        }
        if targetUserRole.Some? && (targetUserRole.value.Admin? || targetUserRole.value.Owner?)
            && !currentUserRole.value.Owner? {
          return Some("cannot remove an admin or the owner");
        }
        if u == organisations[o].createdByUserId {
          return Some("cannot remove an admin or the owner");
        }
      }
      return None;
    }

    /** The invited user turns the invitation down, whatever the spelling of the address. */
    method DeclineInvitation(user: Option<UserId>, o: OrgId, email: Email) returns (outcome: Outcome)
      requires user.Some? ==> user.value in addresses
      modifies this`invitations
      ensures user.None? ==> outcome.Failure? && Tables() == old(Tables())
      ensures user.Some? ==>
                var op := Decline(user.value, o, email);
                Tables() == Apply(old(Tables()), op) && (outcome.Success? <==> Succeeds(old(Tables()), op))
    {
      if user.None? {
        return Failure("unauthorized user");
      }
      if (o, email) !in invitations {
        return Failure("invitation not found");
      }
      if Normal(addresses[user.value]) != email {
        return Failure("invitation is not for you");
      }
      invitations := invitations - {(o, email)};
      return Success;
    }

    /** An admin or the owner withdraws an invitation. */
    method CancelInvitation(user: Option<UserId>, o: OrgId, email: Email) returns (outcome: Outcome)
      modifies this`invitations
      ensures user.None? ==> outcome.Failure? && Tables() == old(Tables())
      ensures user.Some? ==>
                var op := Cancel(user.value, o, email);
                Tables() == Apply(old(Tables()), op) && (outcome.Success? <==> Succeeds(old(Tables()), op))
    {
      if user.None? {
        return Failure("unauthorized user");
      }
      if (o, email) !in invitations {
        return Failure("invitation not found");
      }
      if !IsAdminOrOwner(Tables(), o, user.value) {
        return Failure("only an admin can cancel an invitation");
      }
      invitations := invitations - {(o, email)};
      return Success;
    }

    method UpdateMemberRole(user: Option<UserId>, o: OrgId, u: UserId, role: Role) returns (outcome: Outcome)
      modifies this`members
      ensures user.None? ==> outcome.Failure? && Tables() == old(Tables())
      ensures user.Some? ==>
                var op := UpdateRole(user.value, o, u, role);
                Tables() == Apply(old(Tables()), op) && (outcome.Success? <==> Succeeds(old(Tables()), op))
    {
      if user.None? {
        return Failure("unauthorized user");
      }
      if o !in organisations {
        return Failure("organisation not found");
      }
      if role.Owner? {
        return Failure("invalid member role");
      }
      if u == organisations[o].createdByUserId {
        return Failure("cannot change the owner's role");
      }
      var currentUserRole := GetRole(o, user.value);
      if currentUserRole.None? {
        return Failure("not a member of the organisation");
      }
      var targetUserRole := GetRole(o, u);
      if targetUserRole.None? {
        return Failure("not a member of the organisation");
      }
      if currentUserRole.value.Member? {
        return Failure("only an admin or the owner can update roles");
      }
      if targetUserRole.value.Admin? {
        if !currentUserRole.value.Owner? {
          return Failure("cannot change an admin's role");
        }
      }
      members := members[(o, u) := members[(o, u)].(role := role)];
      return Success;
    }
  }

  /** Why an invitation is refused, if it is: the checks in order of precedence. */
  function InviteRefusal(db: Db, user: Option<UserId>, o: OrgId, email: Email, isEmail: string -> bool,
                         found: Option<UserId>): Option<string>
  {
    if user.None? then Some("unauthorized user")
    else if !IsAdminOrOwner(db, o, user.value) then Some("only an admin can invite")
    else if email.text == "" then Some("email cannot be empty")
    else if !isEmail(email.text) then Some("invalid email format")
    else if found.Some? && (o, found.value) in db.members then Some("user is already a member")
    else if found.None? && (o, email) in db.invitations then Some("user is already invited")
    else None
  }

  // ---------- Choices that can always be made ----------

  lemma AnOldest(db: Db, u: UserId) returns (next: Option<OrgId>)
    ensures ChoosesOldest(db, u, next)
  {
    var remaining := set k <- db.members | k.1 == u;
    if remaining == {} {
      next := None;
      assert forall k <- db.members :: k !in remaining;
    } else {
      var created := map k <- db.members :: db.members[k].createdAt;
      var k := OldestExists(created, remaining);
      assert k == (k.0, u);
      assert forall j <- db.members :: j.1 == u ==>
          j in remaining && db.members[k].createdAt <= db.members[j].createdAt;
      next := Some(k.0);
    }
  }

  lemma AdmitNobody(db: Db, o: OrgId)
    ensures AdmitsEach(db, o, [], {}) && AdmittedAll(db, o, []) == db
  {
  }

  lemma AdmitOneMore(db: Db, o: OrgId, admissions: seq<Admission>, users: set<UserId>, u: UserId, cs: seq<ConfigId>)
    requires AdmitsEach(db, o, admissions, users) && u !in users && ListsConfigs(db, o, cs)
    ensures AdmitsEach(db, o, admissions + [Admission(u, cs)], users + {u})
    ensures AdmittedAll(db, o, admissions + [Admission(u, cs)]) == Admitted(AdmittedAll(db, o, admissions), o, u, cs)
  {
    var more := admissions + [Admission(u, cs)];
    assert more[..|admissions|] == admissions;
    forall s <- users + {u}
      ensures exists i | 0 <= i < |more| :: more[i].user == s
    {
      if s == u {
        assert more[|admissions|].user == s;
      } else {
        var i :| 0 <= i < |admissions| && admissions[i].user == s;
        assert more[i].user == s;
      }
    }
  }

  // ---------- Moving invitations ----------

  /** The joins made so far: each of these organisations once, none of which had the user as a member. */
  ghost predicate AreJoins(db: Db, u: UserId, email: Email, joins: seq<Join>, orgs: set<OrgId>) {
    && (forall i | 0 <= i < |joins| ::
          && joins[i].org in orgs
          && (joins[i].org, email) in db.invitations
          && (joins[i].org, u) !in db.members
          && ListsConfigs(db, joins[i].org, joins[i].configs))
    && (forall i, j | 0 <= i < j < |joins| :: joins[i].org != joins[j].org)
    && (forall o <- orgs :: exists i | 0 <= i < |joins| :: joins[i].org == o)
  }

  lemma OneMoreJoin(db: Db, u: UserId, email: Email, joins: seq<Join>, orgs: set<OrgId>, j: Join)
    requires AreJoins(db, u, email, joins, orgs) && j.org !in orgs
    requires (j.org, email) in db.invitations && (j.org, u) !in db.members && ListsConfigs(db, j.org, j.configs)
    ensures AreJoins(db, u, email, joins + [j], orgs + {j.org})
  {
    hide ListsConfigs;
    var more := joins + [j];
    forall o <- orgs + {j.org}
      ensures exists i | 0 <= i < |more| :: more[i].org == o
    {
      if o == j.org {
        assert more[|joins|].org == o;
      } else {
        var i :| 0 <= i < |joins| && joins[i].org == o;
        assert more[i].org == o;
      }
    }
  }

  /** One more join after joins that succeeded, for another organisation. */
  lemma {:induction false} MoveOneMore(db: Db, u: UserId, email: Email, joins: seq<Join>, j: Join)
    requires forall i | 0 <= i < |joins| :: (joins[i].org, u) !in db.members && joins[i].org != j.org
    requires forall i, k | 0 <= i < k < |joins| :: joins[i].org != joins[k].org
    ensures (j.org, u) in InvitationsMoved(db, u, email, joins).members <==> (j.org, u) in db.members
    ensures
      var moved := InvitationsMoved(db, u, email, joins);
      InvitationsMoved(db, u, email, joins + [j]) ==
      if (j.org, u) in db.members then moved
      else WithoutInvitation(JoinedAndShared(moved, j.org, u, j.configs), j.org, email)
    decreases |joins|
  {
    if joins == [] {
      assert [j][1..] == [];
    } else {
      var next := WithoutInvitation(JoinedAndShared(db, joins[0].org, u, joins[0].configs), joins[0].org, email);
      assert next.members == Joined(db, joins[0].org, u, Member, false).members;
      MoveOneMore(next, u, email, joins[1..], j);
      assert (joins + [j])[1..] == joins[1..] + [j];
    }
  }

  lemma MoveNone(db: Db, u: UserId, email: Email)
    ensures InvitationsMoved(db, u, email, []) == db && AreJoins(db, u, email, [], {})
  {
  }

  lemma JoinsAreOthers(db: Db, u: UserId, email: Email, joins: seq<Join>, orgs: set<OrgId>, o: OrgId)
    requires AreJoins(db, u, email, joins, orgs) && o !in orgs
    ensures forall i | 0 <= i < |joins| :: (joins[i].org, u) !in db.members && joins[i].org != o
    ensures forall i, k | 0 <= i < k < |joins| :: joins[i].org != joins[k].org
  {
  }

  /** A join after those made so far fails because the user is a member. */
  lemma FailedMove(db: Db, op: Operation, joins: seq<Join>, orgs: set<OrgId>)
    requires op.MoveInvitations? && AreJoins(db, op.actor, op.email, joins, orgs)
    requires |op.joins| == |joins| + 1 && op.joins[..|joins|] == joins
    requires
      var last := op.joins[|joins|];
      && last.org !in orgs && (last.org, op.email) in db.invitations && (last.org, op.actor) in db.members
      && ListsConfigs(db, last.org, last.configs)
    ensures Legit(db, op) && !Succeeds(db, op)
  {
    hide ListsConfigs;
    assert op.joins[|joins|] in op.joins;
    assert forall i | 0 <= i < |joins| :: op.joins[i] == joins[i];
  }

  lemma CompleteMove(db: Db, op: Operation, all: set<OrgId>)
    requires op.MoveInvitations? && AreJoins(db, op.actor, op.email, op.joins, all)
    requires all == set k <- db.invitations | k.1 == op.email :: k.0
    ensures Legit(db, op) && Succeeds(db, op)
  {
    forall k <- db.invitations | k.1 == op.email
      ensures exists i | 0 <= i < |op.joins| :: op.joins[i].org == k.0
    {
      assert k.0 in all;
      var i :| 0 <= i < |op.joins| && op.joins[i].org == k.0;
    }
  }
}
