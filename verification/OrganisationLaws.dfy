/**
 The laws of membership, in terms of the tables alone: by what an operation anyone gains or loses a membership, a
 role, access, an invitation or an organisation, and that whoever is entitled to an operation succeeds with it.
 */
module OrganisationLaws {
  import opened Wrappers
  import opened OrganisationDb
  import opened OrganisationRuns

  // ---------- Addresses ----------

  /** Two spellings of an address mean the same if they differ only in the case of letters and in space around them. */
  lemma NormalReads(before: string, s: string, after: string)
    requires s != "" && !GoStrings.IsSpace(s[0]) && !GoStrings.IsSpace(s[|s| - 1])
    requires (forall c <- before :: GoStrings.IsSpace(c)) && (forall c <- after :: GoStrings.IsSpace(c))
    ensures
      var text := Normal(before + s + after).text;
      |text| == |s| && forall i | 0 <= i < |s| :: text[i] == GoStrings.Lower(s[i])
  {
    GoStrings.LoweredAt(before + s + after);
    GoStrings.LoweredAt(s);
    var lower := GoStrings.ToLower(s);
    assert forall i | 0 <= i < |before| :: before[i] in before;
    assert forall i | 0 <= i < |after| :: after[i] in after;
    assert GoStrings.ToLower(before + s + after) == before + lower + after;
    GoStrings.TrimsSpace(before, lower, after);
  }

  // ---------- Migration ----------

  /** The access rows and memberships that one admission adds. */
  lemma AdmittedAdds(db: Db, o: OrgId, u: UserId, cs: seq<ConfigId>)
    requires ListsConfigs(db, o, cs)
    ensures
      var db' := Admitted(db, o, u, cs);
      && db' == db.(members := db'.members, access := db'.access, clock := db'.clock)
      && (forall k :: k in db'.members <==> k in db.members || k == (o, u))
      && (forall k <- db.members :: db'.members[k].role == db.members[k].role)
      && ((o, u) !in db.members ==> db'.members[(o, u)].role == Member)
      && (forall k :: k in db'.access <==> k in db.access || (k.1 == u && IsConfigOf(db, k.0, o)))
      && (forall k <- db.access :: db'.access[k] == db.access[k])
      && (forall k <- db'.access :: k !in db.access ==> MayOnlyView(db'.access[k]))
  {
    hide ListsConfigs, HasCurrent;
    var joined :=
      if (o, u) !in db.members then Joined(db, o, u, Member, !HasCurrent(db, u))
      else if !HasCurrent(db, u) then MadeCurrent(db, o, u)
      else db;
    SameConfigsSameLists(db, joined, o, cs);
    BulkSharing(joined, o, u, cs);
  }

  lemma {:induction false} AdmittedAllAdds(db: Db, o: OrgId, admissions: seq<Admission>)
    requires forall i | 0 <= i < |admissions| :: ListsConfigs(db, o, admissions[i].configs)
    ensures
      var db' := AdmittedAll(db, o, admissions);
      && db' == db.(members := db'.members, access := db'.access, clock := db'.clock)
      && (forall k :: k in db'.members <==> k in db.members || (k.0 == o && k.1 in Users(admissions)))
      && (forall k <- db.members :: db'.members[k].role == db.members[k].role)
      && (forall k <- db'.members :: k !in db.members ==> db'.members[k].role == Member)
      && (forall k :: k in db'.access <==> k in db.access || (k.1 in Users(admissions) && IsConfigOf(db, k.0, o)))
      && (forall k <- db.access :: db'.access[k] == db.access[k])
      && (forall k <- db'.access :: k !in db.access ==> MayOnlyView(db'.access[k]))
  {
    hide ListsConfigs, Admitted;
    if admissions != [] {
      var before, last := admissions[..|admissions| - 1], admissions[|admissions| - 1];
      var middle := AdmittedAll(db, o, before);
      AdmittedAllAdds(db, o, before);
      SameConfigsSameLists(db, middle, o, last.configs);
      AdmittedAdds(middle, o, last.user, last.configs);
      assert Users(admissions) == Users(before) + {last.user};
      assert forall c :: IsConfigOf(middle, c, o) <==> IsConfigOf(db, c, o);
    }
  }

  /** Someone else with access to a config of the actor's that belongs to no organisation. */
  ghost predicate SharesOrphan(db: Db, actor: UserId, u: UserId) {
    u != actor &&
    exists c <- db.configs ::
      db.configs[c].organisationId.None? && (c, actor) in db.access && (c, u) in db.access
  }

  lemma SharersShare(db: Db, actor: UserId, u: UserId)
    ensures u in SharersOf(db, actor, Orphans(db, actor)) <==> SharesOrphan(db, actor, u)
  {
    var orphans := Orphans(db, actor);
    if SharesOrphan(db, actor, u) {
      var c :| c in db.configs && db.configs[c].organisationId.None? && (c, actor) in db.access && (c, u) in db.access;
      assert (c, actor) in db.access && (c, u) in db.access;
      assert c in orphans;
    }
    if u in SharersOf(db, actor, orphans) {
      var k :| k in db.access && k.0 in orphans && k.1 != actor && k.1 == u;
      var j :|
        j in db.access && j.1 == actor && j.0 == k.0 && j.0 in db.configs && db.configs[j.0].organisationId.None?;
      assert j == (j.0, actor) && k == (j.0, u);
    }
  }

  /** What creating an organisation does, when the move of the orphans does not fail. */
  lemma CreateDoes(db: Db, op: Operation)
    requires Inv(db) && Legit(db, op) && op.Create?
    ensures
      var db', o := Apply(db, op), op.org;
      && o !in db.organisations && db'.organisations == db.organisations[o := Organisation(op.name, op.slug, op.actor)]
      && (o, op.actor) in db'.members && db'.members[(o, op.actor)].role == Owner
      && db'.invitations == db.invitations
      && (forall k <- db.members :: k in db'.members && db'.members[k].role == db.members[k].role)
      && (forall k <- db'.members :: k !in db.members ==>
            k.0 == o && (k.1 == op.actor || (db'.members[k].role == Member && SharesOrphan(db, op.actor, k.1))))
      && (forall k <- db.access :: k in db'.access && db'.access[k] == db.access[k])
      && (forall k <- db'.access :: k !in db.access ==>
            MayOnlyView(db'.access[k]) && SharesOrphan(db, op.actor, k.1) && IsConfigOf(db', k.0, o))
  {
    var created := Created(db, op.actor, op.org, op.name, op.slug);
    var orphans := Orphans(created, op.actor);
    assert orphans == Orphans(db, op.actor);
    if Migrates(created, op.org, op.actor) {
      var moved := Moved(created, op.org, orphans);
      hide AdmittedAll, NamesUnique, ListsConfigs;
      AdmittedAllAdds(moved, op.org, op.admissions);
      forall u | u in Users(op.admissions)
        ensures SharesOrphan(db, op.actor, u)
      {
        SharersShare(db, op.actor, u);
      }
    }
  }

  // ---------- Invitations moved ----------

  /** What joining one organisation does. */
  lemma JoinedAndSharedAdds(db: Db, o: OrgId, u: UserId, cs: seq<ConfigId>)
    requires ListsConfigs(db, o, cs) && (o, u) !in db.members
    ensures
      var db' := JoinedAndShared(db, o, u, cs);
      && db' == db.(members := db'.members, access := db'.access, clock := db'.clock)
      && db'.members == db.members[(o, u) := Membership(Member, false, db.clock)]
      && (forall k :: k in db'.access <==> k in db.access || (k.1 == u && IsConfigOf(db, k.0, o)))
      && (forall k <- db.access :: db'.access[k] == db.access[k])
      && (forall k <- db'.access :: k !in db.access ==> MayOnlyView(db'.access[k]))
  {
    hide ListsConfigs;
    var joined := Joined(db, o, u, Member, false);
    SameConfigsSameLists(db, joined, o, cs);
    BulkSharing(joined, o, u, cs);
  }

  /** What turning one invitation into a membership does. */
  ghost predicate IsJoin(db: Db, db': Db, o: OrgId, u: UserId, email: Email) {
    && db' == db.(members := db'.members, access := db'.access, invitations := db'.invitations, clock := db'.clock)
    && db'.members == db.members[(o, u) := Membership(Member, false, db.clock)]
    && db'.invitations == db.invitations - {(o, email)}
    && (forall k :: k in db'.access <==> k in db.access || (k.1 == u && IsConfigOf(db, k.0, o)))
    && (forall k <- db.access :: db'.access[k] == db.access[k])
    && (forall k <- db'.access :: k !in db.access ==> MayOnlyView(db'.access[k]))
  }

  lemma JoinIsJoin(db: Db, o: OrgId, u: UserId, cs: seq<ConfigId>, email: Email)
    requires ListsConfigs(db, o, cs) && (o, u) !in db.members
    ensures IsJoin(db, WithoutInvitation(JoinedAndShared(db, o, u, cs), o, email), o, u, email)
  {
    JoinedAndSharedAdds(db, o, u, cs);
    hide JoinedAndShared, ListsConfigs;
  }

  /** The joins name different organisations, each with all of its configs. */
  ghost predicate AreDistinctJoins(db: Db, joins: seq<Join>) {
    && (forall i | 0 <= i < |joins| :: ListsConfigs(db, joins[i].org, joins[i].configs))
    && (forall i, j | 0 <= i < j < |joins| :: joins[i].org != joins[j].org)
  }

  /** Moving the rest of the invitations goes on as moving them after the first. */
  lemma MoveFirst(db: Db, u: UserId, email: Email, joins: seq<Join>) returns (next: Db)
    requires joins != [] && (joins[0].org, u) !in db.members && AreDistinctJoins(db, joins)
    ensures IsJoin(db, next, joins[0].org, u, email) && AreDistinctJoins(next, joins[1..])
    ensures InvitationsMoved(db, u, email, joins) == InvitationsMoved(next, u, email, joins[1..])
    ensures forall i | 0 <= i < |joins| - 1 :: joins[1..][i] == joins[i + 1]
  {
    var o, cs, rest := joins[0].org, joins[0].configs, joins[1..];
    next := WithoutInvitation(JoinedAndShared(db, o, u, cs), o, email);
    JoinIsJoin(db, o, u, cs, email);
    hide JoinedAndShared, ListsConfigs, WithoutInvitation;
    forall i | 0 <= i < |rest|
      ensures ListsConfigs(next, rest[i].org, rest[i].configs)
    {
      SameConfigsSameLists(db, next, rest[i].org, rest[i].configs);
    }
  }

  lemma {:induction false} InvitationsMovedMembers(db: Db, u: UserId, email: Email, joins: seq<Join>)
    requires AreDistinctJoins(db, joins)
    ensures
      var db' := InvitationsMoved(db, u, email, joins);
      && db'.organisations == db.organisations && db'.configs == db.configs && db'.addresses == db.addresses
      && (forall k <- db.members :: k in db'.members && db'.members[k] == db.members[k])
      && (forall k <- db'.members :: k !in db.members ==>
            && k.1 == u && (exists i | 0 <= i < |joins| :: joins[i].org == k.0)
            && db'.members[k].role == Member && !db'.members[k].isCurrent)
      && (forall k <- db'.invitations :: k in db.invitations && db'.invitations[k] == db.invitations[k])
      && (forall k <- db.invitations :: k !in db'.invitations ==> k.1 == email && (k.0, u) in db'.members)
    decreases |joins|
  {
    hide InvitationsMoved;
    if joins != [] && (joins[0].org, u) !in db.members {
      var next := MoveFirst(db, u, email, joins);
      InvitationsMovedMembers(next, u, email, joins[1..]);
      hide AreDistinctJoins;
    } else {
      NothingMoved(db, u, email, joins);
    }
  }

  lemma NothingMoved(db: Db, u: UserId, email: Email, joins: seq<Join>)
    requires joins == [] || (joins[0].org, u) in db.members
    ensures InvitationsMoved(db, u, email, joins) == db
  {
  }

  lemma {:induction false} InvitationsMovedAccess(db: Db, u: UserId, email: Email, joins: seq<Join>)
    requires AreDistinctJoins(db, joins)
    ensures
      var db' := InvitationsMoved(db, u, email, joins);
      && (forall k <- db'.access :: k !in db.access ==>
            && k.1 == u && MayOnlyView(db'.access[k])
            && exists i | 0 <= i < |joins| :: IsConfigOf(db, k.0, joins[i].org))
      && (forall k <- db.access :: k in db'.access && db'.access[k] == db.access[k])
    decreases |joins|
  {
    hide InvitationsMoved;
    if joins != [] && (joins[0].org, u) !in db.members {
      var next := MoveFirst(db, u, email, joins);
      InvitationsMovedAccess(next, u, email, joins[1..]);
      assert forall c, p :: IsConfigOf(next, c, p) <==> IsConfigOf(db, c, p);
    } else {
      NothingMoved(db, u, email, joins);
    }
  }

  /** If the user is in none of the organisations, every invitation becomes a membership with all the configs. */
  lemma {:induction false} AllInvitationsMoved(db: Db, u: UserId, email: Email, joins: seq<Join>, i: nat)
    requires AreDistinctJoins(db, joins) && i < |joins|
    requires forall j | 0 <= j < |joins| :: (joins[j].org, u) !in db.members
    ensures
      var db' := InvitationsMoved(db, u, email, joins);
      && (joins[i].org, u) in db'.members && (joins[i].org, email) !in db'.invitations
      && forall c | IsConfigOf(db, c, joins[i].org) :: (c, u) in db'.access
    decreases |joins|
  {
    hide InvitationsMoved;
    var next := MoveFirst(db, u, email, joins);
    InvitationsMovedMembers(next, u, email, joins[1..]);
    InvitationsMovedAccess(next, u, email, joins[1..]);
    if i > 0 {
      assert forall j | 0 < j < |joins| :: joins[j].org != joins[0].org;
      AllInvitationsMoved(next, u, email, joins[1..], i - 1);
      assert forall c :: IsConfigOf(next, c, joins[i].org) <==> IsConfigOf(db, c, joins[i].org);
    }
  }

  // ---------- Who succeeds, and what it does ----------

  predicate IsAdminIn(db: Db, o: OrgId, u: UserId) {
    (o, u) in db.members && (db.members[(o, u)].role == Owner || db.members[(o, u)].role == Admin)
  }

  /** The user's own address, however it is spelled, is this email. */
  predicate HasAddress(db: Db, u: UserId, email: Email) {
    u in db.addresses && Normal(db.addresses[u]) == email
  }

  /** An admin or the owner invites: a registered user who is no member joins, an unknown address is invited once. */
  lemma InviteDoes(db: Db, op: Operation)
    requires Legit(db, op) && op.Invite?
    ensures
      var db', o := Apply(db, op), op.org;
      var may := IsAdminIn(db, o, op.actor) &&
                 if op.invitee.Some? then (o, op.invitee.value) !in db.members else (o, op.email) !in db.invitations;
      && (Succeeds(db, op) <==> may)
      && (!may ==> db' == db)
      && (op.invitee.Some? ==>
            op.invitee.value in db.addresses && db.addresses[op.invitee.value] == op.email.text)
      && (may && op.invitee.Some? ==>
            && db' == db.(members := db'.members, access := db'.access, clock := db'.clock)
            && db'.members == db.members[(o, op.invitee.value) := Membership(Member, false, db.clock)]
            && (forall k :: k in db'.access <==>
                  k in db.access || (k.1 == op.invitee.value && IsConfigOf(db, k.0, o)))
            && (forall k <- db.access :: db'.access[k] == db.access[k])
            && (forall k <- db'.access :: k !in db.access ==> MayOnlyView(db'.access[k])))
      && (may && op.invitee.None? ==>
            && db' == db.(invitations := db.invitations[(o, op.email) := op.actor])
            && (forall u <- db.addresses :: db.addresses[u] != op.email.text))
  {
    if op.invitee.Some? && (op.org, op.invitee.value) !in db.members {
      JoinedAndSharedAdds(db, op.org, op.invitee.value, op.configs);
    }
    hide JoinedAndShared, ListsConfigs;
  }

  /** The invited user accepts, and nobody else does. */
  lemma AcceptDoes(db: Db, op: Operation)
    requires Legit(db, op) && op.Accept?
    ensures
      var may := (op.org, op.email) in db.invitations && HasAddress(db, op.actor, op.email)
                 && (op.org, op.actor) !in db.members;
      && (Succeeds(db, op) <==> may)
      && (!may ==> Apply(db, op) == db)
      && (may ==> IsJoin(db, Apply(db, op), op.org, op.actor, op.email))
  {
    if (op.org, op.actor) !in db.members {
      JoinIsJoin(db, op.org, op.actor, op.configs, op.email);
    }
    hide JoinedAndShared, ListsConfigs, IsJoin;
  }

  /** The invited user declines, an admin or the owner cancels, and nobody else does. */
  lemma WithdrawDoes(db: Db, op: Operation)
    requires op.Decline? || op.Cancel?
    ensures
      var may := (op.org, op.email) in db.invitations &&
                 if op.Decline? then HasAddress(db, op.actor, op.email) else IsAdminIn(db, op.org, op.actor);
      && (Succeeds(db, op) <==> may)
      && Apply(db, op) == if may then db.(invitations := db.invitations - {(op.org, op.email)}) else db
  {
  }

  /** A new user's invitations become memberships, unless the user is in one of the organisations already. */
  lemma MoveDoes(db: Db, op: Operation)
    requires Legit(db, op) && op.MoveInvitations?
    requires forall k <- db.invitations :: k.1 == op.email ==> (k.0, op.actor) !in db.members
    ensures Succeeds(db, op)
    ensures forall k <- db.invitations :: k.1 == op.email ==>
              && (k.0, op.actor) in Apply(db, op).members && k !in Apply(db, op).invitations
              && forall c | IsConfigOf(db, c, k.0) :: (c, op.actor) in Apply(db, op).access
  {
    var joins := op.joins;
    assert forall i | 0 <= i < |joins| :: (joins[i].org, op.email) in db.invitations;
    assert AreDistinctJoins(db, joins);
    forall k <- db.invitations | k.1 == op.email
      ensures
        && (k.0, op.actor) in Apply(db, op).members && k !in Apply(db, op).invitations
        && forall c | IsConfigOf(db, c, k.0) :: (c, op.actor) in Apply(db, op).access
    {
      var i :| 0 <= i < |joins| && joins[i].org == k.0;
      AllInvitationsMoved(db, op.actor, op.email, joins, i);
      assert k == (k.0, op.email);
    }
  }

  /** A member makes an organisation current: it is then the one current one of that user, and nothing else changes. */
  lemma SetCurrentDoes(db: Db, op: Operation)
    requires op.SetCurrent?
    ensures
      var db', may := Apply(db, op), (op.org, op.actor) in db.members;
      && (Succeeds(db, op) <==> may)
      && (!may ==> db' == db)
      && (may ==>
            && db' == db.(members := db'.members) && db'.members.Keys == db.members.Keys
            && (forall k <- db.members ::
                  && db'.members[k] == db.members[k].(isCurrent := db'.members[k].isCurrent)
                  && (db'.members[k].isCurrent <==>
                        if k.1 == op.actor then k.0 == op.org else db.members[k].isCurrent)))
  {
  }

  /** Nothing differs but which memberships are current. */
  ghost predicate OnlyCurrentDiffers(db: Db, db': Db) {
    && db' == db.(members := db'.members) && db'.members.Keys == db.members.Keys
    && forall k <- db.members :: db'.members[k] == db.members[k].(isCurrent := db'.members[k].isCurrent)
  }

  /** A promotion makes one of the user's oldest memberships current, when the former one was and there is another. */
  lemma PromotedDoes(db: Db, u: UserId, wasCurrent: bool, next: Option<OrgId>)
    requires ChoosesOldest(db, u, next)
    ensures OnlyCurrentDiffers(db, Promoted(db, u, wasCurrent, next))
    ensures
      var db' := Promoted(db, u, wasCurrent, next);
      && (forall k <- db.members :: db.members[k].isCurrent ==> db'.members[k].isCurrent)
      && (forall k <- db.members :: db'.members[k].isCurrent && !db.members[k].isCurrent ==>
            wasCurrent && k.1 == u
            && forall j <- db.members :: j.1 == u ==> db.members[k].createdAt <= db.members[j].createdAt)
      && (wasCurrent && (exists k <- db.members :: k.1 == u) ==>
            exists k <- db.members :: k.1 == u && db'.members[k].isCurrent)
  {
  }

  /** What is left of the tables when an organisation goes, but for which memberships are current. */
  ghost predicate IsDeletion(db: Db, db': Db, o: OrgId) {
    && db'.addresses == db.addresses && db'.organisations == db.organisations - {o}
    && (forall k :: k in db'.members <==> k in db.members && k.0 != o)
    && (forall k <- db'.members :: db'.members[k] == db.members[k].(isCurrent := db'.members[k].isCurrent))
    && (forall k :: k in db'.invitations <==> k in db.invitations && k.0 != o)
    && (forall k <- db'.invitations :: db'.invitations[k] == db.invitations[k])
    && (forall c <- db'.configs :: c in db.configs && db'.configs[c].organisationId != Some(o))
    && (forall c <- db.configs :: db.configs[c].organisationId != Some(o) ==>
          c in db'.configs && db'.configs[c] == db.configs[c])
    && (forall k <- db'.access :: k in db.access && db'.access[k] == db.access[k])
    && (forall k <- db.access :: !IsConfigOf(db, k.0, o) ==> k in db'.access)
  }

  lemma WithoutOrganisationIsDeletion(db: Db, o: OrgId, dropConfigs: bool)
    ensures IsDeletion(db, WithoutOrganisation(db, o, dropConfigs), o)
  {
  }

  lemma DeletionButForCurrent(db: Db, without: Db, db': Db, o: OrgId)
    requires IsDeletion(db, without, o) && OnlyCurrentDiffers(without, db')
    ensures IsDeletion(db, db', o)
  {
  }

  /** The creator deletes an organisation without other members: its memberships and invitations go with it. */
  lemma DeleteDoes(db: Db, op: Operation)
    requires Inv(db) && Legit(db, op) && op.Delete?
    ensures
      var db', o := Apply(db, op), op.org;
      var may := && o in db.organisations && db.organisations[o].createdByUserId == op.actor
                 && forall k <- db.members :: k.0 == o ==> k.1 == op.actor;
      && (Succeeds(db, op) <==> may)
      && (!may ==> db' == db)
      && (may ==> IsDeletion(db, db', o))
  {
    OnlyMemberExactly(db, op.actor, op.org);
    hide MayDelete, IsDeletion, WithoutOrganisation, Promoted, Inv, OnlyCurrentDiffers;
    if MayDelete(db, op.actor, op.org) {
      var without := WithoutOrganisation(db, op.org, op.dropConfigs);
      WithoutOrganisationIsDeletion(db, op.org, op.dropConfigs);
      PromotedDoes(without, op.actor, WasCurrent(db, op.org, op.actor), op.next);
      DeletionButForCurrent(db, without, Apply(db, op), op.org);
    }
  }

  lemma OnlyMemberExactly(db: Db, actor: UserId, o: OrgId)
    requires Inv(db)
    ensures MayDelete(db, actor, o) <==>
              && o in db.organisations && db.organisations[o].createdByUserId == actor
              && forall k <- db.members :: k.0 == o ==> k.1 == actor
  {
    if MayDelete(db, actor, o) {
      SoleMemberIsCreator(db, actor, o);
    }
    if && o in db.organisations && db.organisations[o].createdByUserId == actor
       && forall k <- db.members :: k.0 == o ==> k.1 == actor {
      assert (set k <- db.members | k.0 == o) == {(o, actor)};
    }
  }

  /**
   Whoever may remove a member: anyone but the creator leaves, admins remove members, the owner removes
   admins too.
   */
  predicate MayTakeOut(db: Db, actor: UserId, o: OrgId, u: UserId) {
    && o in db.organisations && db.organisations[o].createdByUserId != u
    && (|| actor == u
        || ((o, actor) in db.members && db.members[(o, actor)].role == Owner)
        || ((o, actor) in db.members && db.members[(o, actor)].role == Admin && !IsAdminIn(db, o, u)))
  }

  /** What is left when a member goes, but for which memberships are current. */
  ghost predicate IsRemoval(db: Db, db': Db, o: OrgId, u: UserId) {
    && db' == db.(members := db'.members, access := db'.access)
    && (forall k :: k in db'.members <==> k in db.members && k != (o, u))
    && (forall k <- db'.members :: db'.members[k] == db.members[k].(isCurrent := db'.members[k].isCurrent))
    && (forall k :: k in db'.access <==> k in db.access && !(k.1 == u && IsConfigOf(db, k.0, o)))
    && (forall k <- db'.access :: db'.access[k] == db.access[k])
  }

  lemma WithoutMemberIsRemoval(db: Db, o: OrgId, u: UserId)
    ensures IsRemoval(db, WithoutMember(WithoutAccess(db, o, u), o, u), o, u)
  {
  }

  lemma RemovalButForCurrent(db: Db, without: Db, db': Db, o: OrgId, u: UserId)
    requires IsRemoval(db, without, o, u) && OnlyCurrentDiffers(without, db')
    ensures IsRemoval(db, db', o, u)
  {
  }

  lemma RemoveDoes(db: Db, op: Operation)
    requires Legit(db, op) && op.Remove?
    ensures
      var db', o, u := Apply(db, op), op.org, op.user;
      && (Succeeds(db, op) <==> MayTakeOut(db, op.actor, o, u) && (o, u) in db.members)
      && (!MayTakeOut(db, op.actor, o, u) ==> db' == db)
      && (MayTakeOut(db, op.actor, o, u) ==> IsRemoval(db, db', o, u))
  {
    var o, u := op.org, op.user;
    MayTakeOutExactly(db, op.actor, o, u);
    WithoutMemberIsRemoval(db, o, u);
    if (o, u) !in db.members {
      assert WithoutMember(WithoutAccess(db, o, u), o, u).members == db.members;
    }
    hide MayRemove, MayTakeOut, IsRemoval, WithoutAccess, Promoted, OnlyCurrentDiffers, ChoosesOldest;
    if MayRemove(db, op.actor, o, u) && (o, u) in db.members {
      var without := WithoutMember(WithoutAccess(db, o, u), o, u);
      PromotedDoes(without, u, WasCurrent(db, o, u), op.next);
      RemovalButForCurrent(db, without, Apply(db, op), o, u);
    }
  }

  lemma MayTakeOutExactly(db: Db, actor: UserId, o: OrgId, u: UserId)
    ensures MayRemove(db, actor, o, u) <==> MayTakeOut(db, actor, o, u)
  {
  }

  /**
   An admin or the owner makes a member an admin or a member; only the owner does so with an admin, and
   nobody with the creator.
   */
  lemma UpdateRoleDoes(db: Db, op: Operation)
    requires op.UpdateRole?
    ensures
      var db', o, u := Apply(db, op), op.org, op.user;
      var may := && o in db.organisations && db.organisations[o].createdByUserId != u
                 && (op.role == Admin || op.role == Member)
                 && (o, u) in db.members && IsAdminIn(db, o, op.actor)
                 && (db.members[(o, u)].role == Admin ==> db.members[(o, op.actor)].role == Owner);
      && (Succeeds(db, op) <==> may)
      && db' == if may then db.(members := db.members[(o, u) := db.members[(o, u)].(role := op.role)]) else db
  {
  }

  /** The configs of an organisation differ in name, as the database demands. */
  predicate AreNamedApart(db: Db) {
    forall c <- db.configs, d <- db.configs | c != d ::
      db.configs[c].organisationId.None?
      || db.configs[c].organisationId != db.configs[d].organisationId
      || db.configs[c].name != db.configs[d].name
  }

  /** A creation succeeds exactly when no two configs it would move have one name, and then moves them all. */
  lemma CreateMoves(db: Db, op: Operation)
    requires Inv(db) && Legit(db, op) && op.Create?
    requires AreNamedApart(db)
    ensures
      var db', o, orphans := Apply(db, op), op.org, Orphans(db, op.actor);
      && (Succeeds(db, op) <==>
            forall c <- orphans, d <- orphans :: c != d ==> db.configs[c].name != db.configs[d].name)
      && (Succeeds(db, op) ==>
            && (forall c <- db.configs ::
                  c in db'.configs &&
                  db'.configs[c] == if c in orphans then db.configs[c].(organisationId := Some(o)) else db.configs[c])
            && (forall u | SharesOrphan(db, op.actor, u) ::
                  (o, u) in db'.members && forall c <- orphans :: (c, u) in db'.access))
      && (!Succeeds(db, op) ==> db'.configs == db.configs && db'.access == db.access)
  {
    var created := Created(db, op.actor, op.org, op.name, op.slug);
    var orphans := Orphans(created, op.actor);
    assert orphans == Orphans(db, op.actor);
    var moved := Moved(created, op.org, orphans);
    NamesAfterMove(created, op.org, orphans);
    hide NamesUnique, AdmittedAll, ListsConfigs;
    if Migrates(created, op.org, op.actor) {
      AdmittedAllAdds(moved, op.org, op.admissions);
      forall u | SharesOrphan(db, op.actor, u)
        ensures u in Users(op.admissions)
      {
        SharersShare(db, op.actor, u);
        assert SharersOf(created, op.actor, orphans) == SharersOf(db, op.actor, orphans);
      }
      assert forall c <- orphans :: IsConfigOf(moved, c, op.org);
    }
  }

  lemma NamesAfterMove(db: Db, o: OrgId, orphans: set<ConfigId>)
    requires forall c :: !IsConfigOf(db, c, o)
    requires forall c <- orphans :: c in db.configs && db.configs[c].organisationId.None?
    requires AreNamedApart(db)
    ensures NamesUnique(Moved(db, o, orphans)) <==>
              forall c <- orphans, d <- orphans :: c != d ==> db.configs[c].name != db.configs[d].name
  {
    var moved := Moved(db, o, orphans);
    if NamesUnique(moved) {
      forall c <- orphans, d <- orphans | c != d
        ensures db.configs[c].name != db.configs[d].name
      {
        assert moved.configs[c].organisationId == moved.configs[d].organisationId == Some(o);
      }
    }
    if forall c <- orphans, d <- orphans :: c != d ==> db.configs[c].name != db.configs[d].name {
      forall c <- moved.configs, d <- moved.configs |
        && c != d && moved.configs[c].organisationId.Some?
        && moved.configs[c].organisationId == moved.configs[d].organisationId
        ensures moved.configs[c].name != moved.configs[d].name
      {
        assert !IsConfigOf(db, c, o) && !IsConfigOf(db, d, o);
      }
    }
  }

  /** What moving invitations does, success or not. */
  lemma MoveFacts(db: Db, op: Operation)
    requires Legit(db, op) && op.MoveInvitations?
    ensures
      var db', joins := Apply(db, op), op.joins;
      && db'.organisations == db.organisations && db'.configs == db.configs
      && (forall i | 0 <= i < |joins| :: (joins[i].org, op.email) in db.invitations)
      && (forall k <- db.members :: k in db'.members && db'.members[k] == db.members[k])
      && (forall k <- db'.members :: k !in db.members ==>
            && k.1 == op.actor && (exists i | 0 <= i < |joins| :: joins[i].org == k.0)
            && db'.members[k].role == Member && !db'.members[k].isCurrent)
      && (forall k <- db'.invitations :: k in db.invitations && db'.invitations[k] == db.invitations[k])
      && (forall k <- db.invitations :: k !in db'.invitations ==> k.1 == op.email && (k.0, op.actor) in db'.members)
  {
    assert AreDistinctJoins(db, op.joins);
    InvitationsMovedMembers(db, op.actor, op.email, op.joins);
  }

  // ---------- The laws ----------

  /** Why a user may have become a member by this operation. */
  ghost predicate Admits(db: Db, op: Operation, o: OrgId, u: UserId) {
    match op
    case Create(actor, created, _, _, _) => o == created && (u == actor || SharesOrphan(db, actor, u))
    case Invite(actor, org, email, _, _) =>
      o == org && IsAdminIn(db, o, actor) && u in db.addresses && db.addresses[u] == email.text
    case Accept(actor, org, email, _) =>
      o == org && u == actor && (o, email) in db.invitations && HasAddress(db, u, email)
    case MoveInvitations(actor, email, _) => u == actor && (o, email) in db.invitations
    case _ => false
  }

  /**
   The law of admission: whoever becomes a member created the organisation, shared a config that its creation
   moved, was invited by an admin or the owner under the address registered, or had an invitation to it for
   the user's own address. Only the creator comes in as anything but a member.
   */
  lemma AdmissionLaw(db: Db, op: Operation, o: OrgId, u: UserId)
    requires Inv(db) && Legit(db, op)
    requires (o, u) in Apply(db, op).members && (o, u) !in db.members
    ensures Admits(db, op, o, u)
    ensures Apply(db, op).members[(o, u)].role == if op.Create? && u == op.actor then Owner else Member
  {
    Effects(db, op);
    hide Apply, Legit, Inv, SharesOrphan, HasAddress, IsAdminIn, MayTakeOut;
  }

  /** What the operation may do to memberships, whichever it is. */
  lemma Effects(db: Db, op: Operation)
    requires Inv(db) && Legit(db, op)
    ensures
      var db' := Apply(db, op);
      match op
      case Create(actor, o, _, _, _) =>
        && (forall k <- db.members :: k in db'.members && db'.members[k].role == db.members[k].role)
        && (forall k <- db'.members :: k !in db.members ==>
              k.0 == o && (if k.1 == actor then db'.members[k].role == Owner
                           else db'.members[k].role == Member && SharesOrphan(db, actor, k.1)))
      case Invite(actor, o, email, invitee, _) =>
        || db'.members == db.members
        || (&& IsAdminIn(db, o, actor) && invitee.Some?
            && invitee.value in db.addresses && db.addresses[invitee.value] == email.text
            && db'.members == db.members[(o, invitee.value) := Membership(Member, false, db.clock)]
            && (o, invitee.value) !in db.members)
      case Accept(actor, o, email, _) =>
        || db' == db
        || (&& (o, email) in db.invitations && HasAddress(db, actor, email) && (o, actor) !in db.members
            && db'.members == db.members[(o, actor) := Membership(Member, false, db.clock)])
      case MoveInvitations(actor, email, joins) =>
        && (forall i | 0 <= i < |joins| :: (joins[i].org, email) in db.invitations)
        && (forall k <- db.members :: k in db'.members && db'.members[k] == db.members[k])
        && (forall k <- db'.members :: k !in db.members ==>
              k.1 == actor && db'.members[k].role == Member && exists i | 0 <= i < |joins| :: joins[i].org == k.0)
      case Delete(_, o, _, _) => db' == db || IsDeletion(db, db', o)
      case Remove(_, o, u, _) => db' == db || (MayTakeOut(db, op.actor, o, u) && IsRemoval(db, db', o, u))
      case UpdateRole(_, o, u, role) =>
        || db' == db
        || (&& (o, u) in db.members
            && db' == db.(members := db.members[(o, u) := db.members[(o, u)].(role := role)]))
      case SetCurrent(_, _) =>
        && db'.members.Keys == db.members.Keys
        && forall k <- db.members :: db'.members[k].role == db.members[k].role
      case _ => db'.members == db.members
  {
    hide Apply, Legit, Inv, HasAddress, IsAdminIn, MayTakeOut, SharesOrphan;
    match op
    case Create(_, _, _, _, _) => CreateDoes(db, op); OwnerIsNew(db, op);
    case Invite(_, _, _, _, _) => InviteDoes(db, op);
    case Accept(_, _, _, _) => AcceptDoes(db, op);
    case MoveInvitations(_, _, _) => MoveFacts(db, op);
    case Delete(_, _, _, _) => DeleteDoes(db, op);
    case Remove(_, _, _, _) => RemoveDoes(db, op);
    case UpdateRole(_, _, _, _) => UpdateRoleDoes(db, op);
    case SetCurrent(_, _) => SetCurrentDoes(db, op);
    case _ => WithdrawDoes(db, op);
  }

  lemma OwnerIsNew(db: Db, op: Operation)
    requires Inv(db) && Legit(db, op) && op.Create?
    ensures (op.org, op.actor) !in db.members
  {
  }

  /** Some operation of the run admits the user, for one of those reasons. */
  ghost predicate AdmittedOnTheWay(db: Db, ops: seq<Operation>, o: OrgId, u: UserId)
    decreases |ops|
  {
    ops != [] && (Admits(db, ops[0], o, u) || AdmittedOnTheWay(Apply(db, ops[0]), ops[1..], o, u))
  }

  /** Over every run, nobody is a member who was not one before and was not admitted on the way. */
  lemma {:induction false} AdmissionOverRuns(db: Db, ops: seq<Operation>, db': Db, o: OrgId, u: UserId)
    requires Inv(db) && Leads(db, ops, db')
    requires (o, u) in db'.members && (o, u) !in db.members
    ensures AdmittedOnTheWay(db, ops, o, u)
    decreases |ops|
  {
    hide Inv, Apply, Legit, Admits;
    var next := Apply(db, ops[0]);
    OperationKeepsInv(db, ops[0]);
    if (o, u) in next.members {
      AdmissionLaw(db, ops[0], o, u);
    } else {
      AdmissionOverRuns(next, ops[1..], db', o, u);
    }
  }

  /**
   The law of dismissal: a membership ends only with its removal by someone entitled to it, or with its
   organisation.
   */
  lemma DismissalLaw(db: Db, op: Operation, o: OrgId, u: UserId)
    requires Inv(db) && Legit(db, op)
    requires (o, u) in db.members && (o, u) !in Apply(db, op).members
    ensures
      || (op.Remove? && op.org == o && op.user == u && MayTakeOut(db, op.actor, o, u))
      || (op.Delete? && op.org == o && o !in Apply(db, op).organisations)
  {
    Effects(db, op);
    hide Apply, Legit, Inv, SharesOrphan, HasAddress, IsAdminIn, MayTakeOut;
  }

  /**
   The law of roles: a role changes only as an admin or the owner says, never to or from owner, and for an
   admin only as the owner says.
   */
  lemma RoleLaw(db: Db, op: Operation, o: OrgId, u: UserId)
    requires Inv(db) && Legit(db, op)
    requires (o, u) in db.members && (o, u) in Apply(db, op).members
    requires Apply(db, op).members[(o, u)].role != db.members[(o, u)].role
    ensures op.UpdateRole? && op.org == o && op.user == u && Apply(db, op).members[(o, u)].role == op.role
    ensures op.role != Owner && db.members[(o, u)].role != Owner
    ensures IsAdminIn(db, o, op.actor)
    ensures db.members[(o, u)].role == Admin ==> db.members[(o, op.actor)].role == Owner
  {
    Effects(db, op);
    if op.UpdateRole? {
      UpdateRoleDoes(db, op);
      assert OwnerIsCreator(db);
    }
    hide Apply, Legit, Inv, SharesOrphan, HasAddress, IsAdminIn, MayTakeOut;
  }

  /**
   The law of organisations: one appears only as created, its creator the actor, and goes only by its
   creator, when no other member is left.
   */
  lemma OrganisationLaw(db: Db, op: Operation, o: OrgId)
    requires Inv(db) && Legit(db, op)
    ensures
      var db' := Apply(db, op);
      && (o in db'.organisations && o !in db.organisations ==>
            op.Create? && op.org == o && db'.organisations[o] == Organisation(op.name, op.slug, op.actor))
      && (o in db.organisations && o !in db'.organisations ==>
            op.Delete? && op.org == o && db.organisations[o].createdByUserId == op.actor
            && forall k <- db.members :: k.0 == o ==> k.1 == op.actor)
      && (o in db.organisations && o in db'.organisations ==> db'.organisations[o] == db.organisations[o])
  {
    hide Apply, Legit, Inv, HasAddress, IsAdminIn, MayTakeOut, SharesOrphan;
    match op
    case Create(_, _, _, _, _) => CreateDoes(db, op);
    case Invite(_, _, _, _, _) => InviteDoes(db, op);
    case Accept(_, _, _, _) => AcceptDoes(db, op);
    case MoveInvitations(_, _, _) => MoveFacts(db, op);
    case Delete(_, _, _, _) => DeleteDoes(db, op);
    case Remove(_, _, _, _) => RemoveDoes(db, op);
    case UpdateRole(_, _, _, _) => UpdateRoleDoes(db, op);
    case SetCurrent(_, _) => SetCurrentDoes(db, op);
    case _ => WithdrawDoes(db, op);
  }

  /**
   The law of invitations: one appears only when an admin or the owner invites an address nobody has registered,
   and goes only when the user of the address accepts or declines it or is made a member, when an admin or the
   owner cancels it, or with its organisation.
   */
  lemma InvitationLaw(db: Db, op: Operation, o: OrgId, email: Email)
    requires Inv(db) && Legit(db, op)
    ensures
      var db' := Apply(db, op);
      && ((o, email) in db'.invitations && (o, email) !in db.invitations ==>
            && op.Invite? && op.org == o && op.email == email && IsAdminIn(db, o, op.actor)
            && db'.invitations[(o, email)] == op.actor
            && forall u <- db.addresses :: db.addresses[u] != email.text)
      && ((o, email) in db.invitations && (o, email) !in db'.invitations ==>
            || ((op.Accept? || op.Decline?) && op.org == o && HasAddress(db, op.actor, email))
            || (op.MoveInvitations? && op.email == email && (o, op.actor) in db'.members)
            || (op.Cancel? && op.org == o && IsAdminIn(db, o, op.actor))
            || (op.Delete? && op.org == o && o !in db'.organisations))
  {
    hide Apply, Legit, Inv, HasAddress, IsAdminIn, MayTakeOut, SharesOrphan;
    match op
    case Create(_, _, _, _, _) => CreateDoes(db, op);
    case Invite(_, _, _, _, _) => InviteDoes(db, op);
    case Accept(_, _, _, _) => AcceptDoes(db, op);
    case MoveInvitations(_, _, _) => MoveFacts(db, op);
    case Delete(_, _, _, _) => DeleteDoes(db, op);
    case Remove(_, _, _, _) => RemoveDoes(db, op);
    case UpdateRole(_, _, _, _) => UpdateRoleDoes(db, op);
    case SetCurrent(_, _) => SetCurrentDoes(db, op);
    case _ => WithdrawDoes(db, op);
  }

  /** What the operation may do to access rows and configs, whichever it is. */
  lemma AccessEffects(db: Db, op: Operation)
    requires Inv(db) && Legit(db, op)
    ensures
      var db' := Apply(db, op);
      && (forall k <- db.access :: k in db'.access ==> db'.access[k] == db.access[k])
      && (forall k <- db'.access :: k !in db.access ==> MayOnlyView(db'.access[k]))
      && (forall k <- db'.access :: k !in db.access ==>
            exists o :: IsConfigOf(db', k.0, o) && (op.Create? || IsConfigOf(db, k.0, o)) && Admits(db, op, o, k.1))
      && (forall k <- db.access :: k !in db'.access ==>
            || (op.Remove? && op.user == k.1 && IsConfigOf(db, k.0, op.org) && MayTakeOut(db, op.actor, op.org, k.1))
            || (op.Delete? && IsConfigOf(db, k.0, op.org) && op.org !in db'.organisations))
  {
    hide Apply, Legit, Inv, HasAddress, IsAdminIn, MayTakeOut, SharesOrphan;
    match op
    case Create(_, _, _, _, _) => CreateDoes(db, op);
    case Invite(_, _, _, _, _) => InviteDoes(db, op);
    case Accept(_, _, _, _) => AcceptDoes(db, op);
    case MoveInvitations(_, _, _) => MoveAccessEffects(db, op);
    case Delete(_, _, _, _) => DeleteDoes(db, op);
    case Remove(_, _, _, _) => RemoveDoes(db, op);
    case UpdateRole(_, _, _, _) => UpdateRoleDoes(db, op);
    case SetCurrent(_, _) => SetCurrentDoes(db, op);
    case _ => WithdrawDoes(db, op);
  }

  lemma MoveAccessEffects(db: Db, op: Operation)
    requires Inv(db) && Legit(db, op) && op.MoveInvitations?
    ensures
      var db' := Apply(db, op);
      && db'.configs == db.configs
      && (forall k <- db.access :: k in db'.access && db'.access[k] == db.access[k])
      && (forall k <- db'.access :: k !in db.access ==>
            MayOnlyView(db'.access[k]) && exists o :: IsConfigOf(db, k.0, o) && Admits(db, op, o, k.1))
  {
    var joins := op.joins;
    assert AreDistinctJoins(db, joins);
    assert forall i | 0 <= i < |joins| :: (joins[i].org, op.email) in db.invitations;
    InvitationsMovedMembers(db, op.actor, op.email, joins);
    InvitationsMovedAccess(db, op.actor, op.email, joins);
    hide InvitationsMoved, AreDistinctJoins;
    var db' := Apply(db, op);
    forall k <- db'.access | k !in db.access
      ensures exists o :: IsConfigOf(db, k.0, o) && Admits(db, op, o, k.1)
    {
      var i :| 0 <= i < |joins| && IsConfigOf(db, k.0, joins[i].org);
      assert Admits(db, op, joins[i].org, k.1);
    }
  }

  /**
   The law of access: whoever gains access to a config may only view it, and comes into its organisation by this
   very operation; access is lost only with the membership there, by someone entitled, or with the
   organisation; and what remains keeps its rights.
   */
  lemma AccessLaw(db: Db, op: Operation, c: ConfigId, u: UserId)
    requires Inv(db) && Legit(db, op)
    ensures
      var db' := Apply(db, op);
      && ((c, u) in db'.access && (c, u) !in db.access ==>
            && MayOnlyView(db'.access[(c, u)]) && c in db'.configs && db'.configs[c].organisationId.Some?
            && (db'.configs[c].organisationId.value, u) in db'.members
            && Admits(db, op, db'.configs[c].organisationId.value, u))
      && ((c, u) in db.access && (c, u) !in db'.access ==>
            || (op.Remove? && op.user == u && IsConfigOf(db, c, op.org) && MayTakeOut(db, op.actor, op.org, u))
            || (op.Delete? && IsConfigOf(db, c, op.org) && op.org !in db'.organisations))
      && ((c, u) in db.access && (c, u) in db'.access ==> db'.access[(c, u)] == db.access[(c, u)])
  {
    AccessEffects(db, op);
    OperationKeepsInv(db, op);
    hide Apply, Legit, Admits, MayTakeOut, Linked, OneCurrent, OwnerIsCreator;
  }

  // ---------- Which organisation is current ----------

  /** Memberships stay and stay current, and any other current one is a user's who had none, in this organisation. */
  ghost predicate GainsCurrent(db: Db, db': Db, o: OrgId, users: set<UserId>) {
    && (forall k <- db.members :: k in db'.members && (db.members[k].isCurrent ==> db'.members[k].isCurrent))
    && (forall k <- db'.members :: db'.members[k].isCurrent ==>
          (k in db.members && db.members[k].isCurrent) || (k.0 == o && k.1 in users && !HasCurrent(db, k.1)))
  }

  lemma AdmittedCurrent(db: Db, o: OrgId, u: UserId, cs: seq<ConfigId>)
    ensures GainsCurrent(db, Admitted(db, o, u, cs), o, {u})
  {
    var joined :=
      if (o, u) !in db.members then Joined(db, o, u, Member, !HasCurrent(db, u))
      else if !HasCurrent(db, u) then MadeCurrent(db, o, u)
      else db;
    SharedKeepsMembers(joined, o, u, cs);
    hide HasCurrent, Shared;
  }

  lemma SharedKeepsMembers(db: Db, o: OrgId, u: UserId, cs: seq<ConfigId>)
    ensures Shared(db, o, u, cs).members == db.members
  {
  }

  lemma GainsNothing(db: Db, o: OrgId)
    ensures GainsCurrent(db, db, o, {})
  {
  }

  lemma GainsOnceMore(db: Db, middle: Db, db': Db, o: OrgId, users: set<UserId>, u: UserId)
    requires GainsCurrent(db, middle, o, users) && GainsCurrent(middle, db', o, {u})
    ensures GainsCurrent(db, db', o, users + {u})
  {
    assert HasCurrent(db, u) ==> HasCurrent(middle, u) by {
      if k :| k in db.members && k.1 == u && db.members[k].isCurrent {
        assert k in middle.members && middle.members[k].isCurrent;
      }
    }
  }

  lemma {:induction false} AdmittedAllCurrent(db: Db, o: OrgId, admissions: seq<Admission>)
    ensures GainsCurrent(db, AdmittedAll(db, o, admissions), o, Users(admissions))
  {
    hide GainsCurrent, Admitted;
    if admissions == [] {
      GainsNothing(db, o);
      assert Users(admissions) == {};
    } else {
      var before, last := admissions[..|admissions| - 1], admissions[|admissions| - 1];
      var middle := AdmittedAll(db, o, before);
      AdmittedAllCurrent(db, o, before);
      AdmittedCurrent(middle, o, last.user, last.configs);
      GainsOnceMore(db, middle, AdmittedAll(db, o, admissions), o, Users(before), last.user);
      assert Users(admissions) == Users(before) + {last.user};
    }
  }

  /** What a creation does to them: nobody's changes, but a sharer without a current one gets it. */
  lemma CreateCurrent(db: Db, op: Operation)
    requires Inv(db) && Legit(db, op) && op.Create?
    ensures
      var db' := Apply(db, op);
      && (forall k <- db.members :: k in db'.members && (db.members[k].isCurrent ==> db'.members[k].isCurrent))
      && (forall k <- db'.members :: db'.members[k].isCurrent ==>
            || (k in db.members && db.members[k].isCurrent)
            || (k.0 == op.org && SharesOrphan(db, op.actor, k.1) && !HasCurrent(db, k.1)))
  {
    var created := Created(db, op.actor, op.org, op.name, op.slug);
    var orphans := Orphans(created, op.actor);
    assert orphans == Orphans(db, op.actor);
    CreatedCurrent(db, op);
    if Migrates(created, op.org, op.actor) {
      var moved := Moved(created, op.org, orphans);
      AdmittedAllCurrent(moved, op.org, op.admissions);
      forall u | u in Users(op.admissions)
        ensures SharesOrphan(db, op.actor, u)
      {
        SharersShare(db, op.actor, u);
      }
      hide AdmittedAll, NamesUnique, ListsConfigs, SharesOrphan, HasCurrent, Inv;
      assert forall u :: HasCurrent(moved, u) == HasCurrent(created, u) by {
        SameMembersSameCurrent(moved, created);
      }
    }
  }

  lemma SameMembersSameCurrent(db: Db, db': Db)
    requires db.members == db'.members
    ensures forall u :: HasCurrent(db, u) == HasCurrent(db', u)
  {
  }

  lemma CreatedCurrent(db: Db, op: Operation)
    requires Inv(db) && Legit(db, op) && op.Create?
    ensures
      var created := Created(db, op.actor, op.org, op.name, op.slug);
      && (forall k <- db.members :: k in created.members && created.members[k] == db.members[k])
      && (forall k <- created.members :: created.members[k].isCurrent ==> k in db.members && db.members[k].isCurrent)
      && (forall u :: HasCurrent(db, u) ==> HasCurrent(created, u))
  {
    var created := Created(db, op.actor, op.org, op.name, op.slug);
    OwnerIsNew(db, op);
    forall u | HasCurrent(db, u)
      ensures HasCurrent(created, u)
    {
      var k :| k in db.members && k.1 == u && db.members[k].isCurrent;
      assert k in created.members && created.members[k].isCurrent;
    }
  }

  /**
   The membership was current, of a user who lost it by this operation, and the oldest one left has taken
   its place.
   */
  ghost predicate TakesPlace(db: Db, db': Db, left: OrgId, u: UserId, o: OrgId) {
    && (left, u) in db.members && db.members[(left, u)].isCurrent && (left, u) !in db'.members
    && (o, u) in db'.members
    && forall j <- db'.members :: j.1 == u ==> db'.members[(o, u)].createdAt <= db'.members[j].createdAt
  }

  lemma PromotionTakesPlace(db: Db, without: Db, u: UserId, left: OrgId, next: Option<OrgId>, o: OrgId, v: UserId)
    requires ChoosesOldest(without, u, next)
    requires (left, u) !in without.members
    requires forall k <- without.members :: k in db.members && without.members[k] == db.members[k]
    ensures
      var db' := Promoted(without, u, WasCurrent(db, left, u), next);
      && ((o, v) in db'.members && db'.members[(o, v)].isCurrent ==>
            (db.members[(o, v)].isCurrent || (v == u && TakesPlace(db, db', left, u, o))))
      && ((o, v) in db'.members && db.members[(o, v)].isCurrent ==> db'.members[(o, v)].isCurrent)
  {
    PromotedDoes(without, u, WasCurrent(db, left, u), next);
    hide Promoted, ChoosesOldest;
  }

  /**
   The law of the current organisation: one becomes a user's current one only when the user chooses it, when it
   takes the place of the current one that the user leaves or that is removed or deleted, as the oldest left, or
   when its creation brings in the user, who had none. It stops being it only when the user chooses another.
   */
  lemma CurrentLaw(db: Db, op: Operation, o: OrgId, u: UserId)
    requires Inv(db) && Legit(db, op)
    ensures
      var db' := Apply(db, op);
      && ((o, u) in db'.members && db'.members[(o, u)].isCurrent
          && !((o, u) in db.members && db.members[(o, u)].isCurrent) ==>
            || (op.SetCurrent? && op.org == o && op.actor == u)
            || (op.Delete? && op.actor == u && TakesPlace(db, db', op.org, u, o))
            || (op.Remove? && op.user == u && TakesPlace(db, db', op.org, u, o))
            || (op.Create? && op.org == o && SharesOrphan(db, op.actor, u) && !HasCurrent(db, u)))
      && ((o, u) in db'.members && (o, u) in db.members
          && db.members[(o, u)].isCurrent && !db'.members[(o, u)].isCurrent ==>
            op.SetCurrent? && op.actor == u && op.org != o)
  {
    hide Apply, Legit, Inv, HasAddress, IsAdminIn, MayTakeOut, SharesOrphan, HasCurrent, TakesPlace;
    match op
    case Create(_, _, _, _, _) => CreateCurrent(db, op);
    case Invite(_, _, _, _, _) => InviteDoes(db, op);
    case Accept(_, _, _, _) => AcceptDoes(db, op);
    case MoveInvitations(_, _, _) => MoveFacts(db, op);
    case Delete(_, _, _, _) => DeleteCurrent(db, op, o, u);
    case Remove(_, _, _, _) => RemoveCurrent(db, op, o, u);
    case UpdateRole(_, _, _, _) => UpdateRoleDoes(db, op);
    case SetCurrent(_, _) => SetCurrentDoes(db, op);
    case _ => WithdrawDoes(db, op);
  }

  lemma DeleteCurrent(db: Db, op: Operation, o: OrgId, u: UserId)
    requires Legit(db, op) && op.Delete?
    ensures
      var db' := Apply(db, op);
      (o, u) in db'.members ==>
        && (o, u) in db.members
        && (db.members[(o, u)].isCurrent ==> db'.members[(o, u)].isCurrent)
        && (db'.members[(o, u)].isCurrent && !db.members[(o, u)].isCurrent ==>
              op.actor == u && TakesPlace(db, db', op.org, u, o))
  {
    var without := WithoutOrganisation(db, op.org, op.dropConfigs);
    PromotionTakesPlace(db, without, op.actor, op.org, op.next, o, u);
    PromotedDoes(without, op.actor, WasCurrent(db, op.org, op.actor), op.next);
    hide Promoted, ChoosesOldest, TakesPlace, MayDelete;
  }

  lemma RemoveCurrent(db: Db, op: Operation, o: OrgId, u: UserId)
    requires Legit(db, op) && op.Remove?
    ensures
      var db' := Apply(db, op);
      (o, u) in db'.members ==>
        && (o, u) in db.members
        && (db.members[(o, u)].isCurrent ==> db'.members[(o, u)].isCurrent)
        && (db'.members[(o, u)].isCurrent && !db.members[(o, u)].isCurrent ==>
              op.user == u && TakesPlace(db, db', op.org, u, o))
  {
    var without := WithoutMember(WithoutAccess(db, op.org, op.user), op.org, op.user);
    PromotionTakesPlace(db, without, op.user, op.org, op.next, o, u);
    PromotedDoes(without, op.user, WasCurrent(db, op.org, op.user), op.next);
    hide Promoted, ChoosesOldest, TakesPlace, MayRemove;
  }

  /**
   The law of configs: a config changes its organisation only when it is an orphan that the creator of a new
   organisation brings into it, or when its organisation is deleted; only then may it also go.
   */
  lemma ConfigLaw(db: Db, op: Operation, c: ConfigId)
    requires Inv(db) && Legit(db, op)
    ensures
      var db' := Apply(db, op);
      && (c in db'.configs ==>
            c in db.configs && db'.configs[c].(organisationId := None) == db.configs[c].(organisationId := None))
      && (c in db'.configs && db'.configs[c] != db.configs[c] ==>
            || (op.Create? && db.configs[c].organisationId.None? && (c, op.actor) in db.access
                && db'.configs[c].organisationId == Some(op.org))
            || (op.Delete? && IsConfigOf(db, c, op.org) && db'.configs[c].organisationId.None?
                && op.org !in db'.organisations))
      && (c in db.configs && c !in db'.configs ==>
            op.Delete? && IsConfigOf(db, c, op.org) && op.org !in db'.organisations)
  {
    match op
    case Create(_, _, _, _, _) => CreateConfigs(db, op, c);
    case Delete(_, _, _, _) => DeleteConfigs(db, op, c);
    case _ => OthersKeepConfigs(db, op);
  }

  lemma OthersKeepConfigs(db: Db, op: Operation)
    requires Inv(db) && Legit(db, op) && !op.Create? && !op.Delete?
    ensures Apply(db, op).configs == db.configs
  {
    hide Apply, Legit, Inv, HasAddress, IsAdminIn, MayTakeOut, SharesOrphan;
    match op
    case Invite(_, _, _, _, _) => InviteDoes(db, op);
    case Accept(_, _, _, _) => AcceptDoes(db, op);
    case MoveInvitations(_, _, _) => MoveFacts(db, op);
    case Remove(_, _, _, _) => RemoveDoes(db, op);
    case UpdateRole(_, _, _, _) => UpdateRoleDoes(db, op);
    case SetCurrent(_, _) => SetCurrentDoes(db, op);
    case _ => WithdrawDoes(db, op);
  }

  lemma DeleteConfigs(db: Db, op: Operation, c: ConfigId)
    requires Inv(db) && Legit(db, op) && op.Delete?
    ensures
      var db' := Apply(db, op);
      && (c in db'.configs ==>
            c in db.configs && (db'.configs[c] == db.configs[c] ||
              (IsConfigOf(db, c, op.org) && op.org !in db'.organisations
               && db'.configs[c] == db.configs[c].(organisationId := None))))
      && (c in db.configs && c !in db'.configs ==> IsConfigOf(db, c, op.org) && op.org !in db'.organisations)
  {
    DeleteDoes(db, op);
    hide MayDelete, Inv;
  }

  lemma CreateConfigs(db: Db, op: Operation, c: ConfigId)
    requires Inv(db) && Legit(db, op) && op.Create?
    ensures
      var db' := Apply(db, op);
      && (c in db'.configs <==> c in db.configs)
      && (c in db.configs && db'.configs[c] != db.configs[c] ==>
            && db.configs[c].organisationId.None? && (c, op.actor) in db.access
            && db'.configs[c] == db.configs[c].(organisationId := Some(op.org)))
  {
    var created := Created(db, op.actor, op.org, op.name, op.slug);
    var orphans := Orphans(created, op.actor);
    if Migrates(created, op.org, op.actor) {
      AdmittedAllAdds(Moved(created, op.org, orphans), op.org, op.admissions);
    }
    if c in orphans {
      var k :|
        k in db.access && k.1 == op.actor && k.0 == c && k.0 in db.configs && db.configs[k.0].organisationId.None?;
      assert k == (c, op.actor);
    }
    hide AdmittedAll, NamesUnique, ListsConfigs;
  }
}
