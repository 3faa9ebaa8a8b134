/**
 The tables behind organisations, and what each operation of the membership library does to them.

 A row's key is its unique key. An operation carries the choices the database makes for it: fresh
 ids, the order in which a query returns rows, and which of several equally old rows it returns.
 */
module OrganisationDb {
  import opened Wrappers
  import GoStrings

  type UserId = int
  type OrgId = int
  type ConfigId = int

  /** An email address in the form the library compares: in lower case and trimmed. */
  datatype Email = Email(text: string)

  function Normal(address: string): Email {
    Email(GoStrings.TrimSpace(GoStrings.ToLower(address)))
  }

  datatype Role = Owner | Admin | Member

  datatype Organisation = Organisation(name: string, slug: string, createdByUserId: UserId)

  datatype Membership = Membership(role: Role, isCurrent: bool, createdAt: nat)

  datatype Config = Config(name: string, organisationId: Option<OrgId>, createdAt: nat)

  datatype Access = Access(isCurrent: bool, canEdit: bool, canShare: bool, canDelete: bool)

  datatype Db = Db(
    addresses: map<UserId, string>,
    organisations: map<OrgId, Organisation>,
    members: map<(OrgId, UserId), Membership>,
    invitations: map<(OrgId, Email), UserId>,
    configs: map<ConfigId, Config>,
    access: map<(ConfigId, UserId), Access>,
    clock: nat)

  // ---------- Queries ----------

  predicate IsConfigOf(db: Db, c: ConfigId, o: OrgId) {
    c in db.configs && db.configs[c].organisationId == Some(o)
  }

  predicate HasCurrent(db: Db, u: UserId) {
    exists k <- db.members :: k.1 == u && db.members[k].isCurrent
  }

  predicate BelongsSomewhere(db: Db, u: UserId) {
    exists k <- db.members :: k.1 == u
  }

  predicate HasCurrentConfig(db: Db, o: OrgId, u: UserId) {
    exists k <- db.access :: k.1 == u && db.access[k].isCurrent && IsConfigOf(db, k.0, o)
  }

  predicate IsAdminOrOwner(db: Db, o: OrgId, u: UserId) {
    (o, u) in db.members && db.members[(o, u)].role in {Owner, Admin}
  }

  function MemberCount(db: Db, o: OrgId): nat {
    |set k <- db.members | k.0 == o|
  }

  /** `cs` is what a query for the organisation's configs returns: each once, oldest first. */
  ghost predicate ListsConfigs(db: Db, o: OrgId, cs: seq<ConfigId>) {
    && (forall i | 0 <= i < |cs| :: IsConfigOf(db, cs[i], o))
    && (forall c <- db.configs :: IsConfigOf(db, c, o) ==> c in cs)
    && (forall i, j | 0 <= i < j < |cs| :: cs[i] != cs[j])
    && (forall i, j | 0 <= i < j < |cs| :: db.configs[cs[i]].createdAt <= db.configs[cs[j]].createdAt)
  }

  lemma SameConfigsSameLists(db: Db, db': Db, o: OrgId, cs: seq<ConfigId>)
    requires db.configs == db'.configs
    ensures ListsConfigs(db, o, cs) <==> ListsConfigs(db', o, cs)
  {
    assert forall c :: IsConfigOf(db, c, o) <==> IsConfigOf(db', c, o);
  }

  /** `o` is one of the user's oldest memberships. */
  ghost predicate IsOldest(db: Db, u: UserId, o: OrgId) {
    && (o, u) in db.members
    && forall k <- db.members :: k.1 == u ==> db.members[(o, u)].createdAt <= db.members[k].createdAt
  }

  // ---------- Steps shared by several operations ----------

  function Joined(db: Db, o: OrgId, u: UserId, role: Role, isCurrent: bool): Db {
    db.(members := db.members[(o, u) := Membership(role, isCurrent, db.clock)], clock := db.clock + 1)
  }

  function MadeCurrent(db: Db, o: OrgId, u: UserId): Db
    requires (o, u) in db.members
  {
    db.(members := db.members[(o, u) := db.members[(o, u)].(isCurrent := true)])
  }

  /** Gives the user each of the listed configs it lacks; the first one given is current unless that is settled. */
  function ShareEach(access: map<(ConfigId, UserId), Access>, u: UserId, cs: seq<ConfigId>, settled: bool)
    : map<(ConfigId, UserId), Access>
    decreases |cs|
  {
    if cs == [] then access
    else if (cs[0], u) in access then ShareEach(access, u, cs[1..], settled)
    else ShareEach(access[(cs[0], u) := Access(!settled, false, false, false)], u, cs[1..], true)
  }

  function Shared(db: Db, o: OrgId, u: UserId, cs: seq<ConfigId>): Db {
    db.(access := ShareEach(db.access, u, cs, HasCurrentConfig(db, o, u)))
  }

  function JoinedAndShared(db: Db, o: OrgId, u: UserId, cs: seq<ConfigId>): Db {
    Shared(Joined(db, o, u, Member, false), o, u, cs)
  }

  // ---------- Migration of orphaned configs ----------

  /** The user's configs that belong to no organisation. */
  function Orphans(db: Db, u: UserId): set<ConfigId> {
    set k <- db.access | k.1 == u && k.0 in db.configs && db.configs[k.0].organisationId.None? :: k.0
  }

  function Moved(db: Db, o: OrgId, orphans: set<ConfigId>): Db {
    db.(configs := map c <- db.configs ::
          if c in orphans then db.configs[c].(organisationId := Some(o)) else db.configs[c])
  }

  /** No two configs of an organisation have the same name. */
  predicate NamesUnique(db: Db) {
    forall c <- db.configs, d <- db.configs ::
      c != d && db.configs[c].organisationId.Some? && db.configs[c].organisationId == db.configs[d].organisationId ==>
        db.configs[c].name != db.configs[d].name
  }

  /** The other users with access to any of these configs. */
  function SharersOf(db: Db, u: UserId, orphans: set<ConfigId>): set<UserId> {
    set k <- db.access | k.0 in orphans && k.1 != u :: k.1
  }

  /** One of the users sharing a moved config: a member now, current there if nowhere else, with all configs shared. */
  function Admitted(db: Db, o: OrgId, u: UserId, cs: seq<ConfigId>): Db {
    var joined :=
      if (o, u) !in db.members then Joined(db, o, u, Member, !HasCurrent(db, u))
      else if !HasCurrent(db, u) then MadeCurrent(db, o, u)
      else db;
    Shared(joined, o, u, cs)
  }

  datatype Admission = Admission(user: UserId, configs: seq<ConfigId>)

  function AdmittedAll(db: Db, o: OrgId, admissions: seq<Admission>): Db {
    if admissions == [] then db
    else
      var last := admissions[|admissions| - 1];
      Admitted(AdmittedAll(db, o, admissions[..|admissions| - 1]), o, last.user, last.configs)
  }

  /**
   There are orphans to move, and no two configs of the organisation would then have one name, which fails
   the move.
   */
  predicate Migrates(db: Db, o: OrgId, u: UserId) {
    Orphans(db, u) != {} && NamesUnique(Moved(db, o, Orphans(db, u)))
  }

  function Migrated(db: Db, o: OrgId, u: UserId, admissions: seq<Admission>): Db {
    if Migrates(db, o, u) then AdmittedAll(Moved(db, o, Orphans(db, u)), o, admissions) else db
  }

  // ---------- The operations ----------

  datatype Operation =
    | Create(actor: UserId, org: OrgId, name: string, slug: string, admissions: seq<Admission>)
    | SetCurrent(actor: UserId, org: OrgId)
    | Delete(actor: UserId, org: OrgId, dropConfigs: bool, next: Option<OrgId>)
    | Invite(actor: UserId, org: OrgId, email: Email, invitee: Option<UserId>, configs: seq<ConfigId>)
    | Accept(actor: UserId, org: OrgId, email: Email, configs: seq<ConfigId>)
    | Decline(actor: UserId, org: OrgId, email: Email)
    | Cancel(actor: UserId, org: OrgId, email: Email)
    | MoveInvitations(actor: UserId, email: Email, joins: seq<Join>)
    | Remove(actor: UserId, org: OrgId, user: UserId, next: Option<OrgId>)
    | UpdateRole(actor: UserId, org: OrgId, user: UserId, role: Role)

  datatype Join = Join(org: OrgId, configs: seq<ConfigId>)

  /** The user's address, however it is spelled, is this email. */
  predicate Owns(db: Db, u: UserId, email: Email) {
    u in db.addresses && Normal(db.addresses[u]) == email
  }

  /** The lookup of an email finds the user whose stored address is spelled exactly so. */
  predicate Finds(db: Db, email: Email, found: Option<UserId>) {
    match found
    case Some(u) => u in db.addresses && db.addresses[u] == email.text
    case None => forall u <- db.addresses :: db.addresses[u] != email.text
  }

  function Created(db: Db, actor: UserId, o: OrgId, name: string, slug: string): Db {
    Joined(db.(organisations := db.organisations[o := Organisation(name, slug, actor)]), o, actor, Owner, false)
  }

  function CurrentSet(db: Db, actor: UserId, o: OrgId): Db {
    db.(members := map k <- db.members ::
          if k.1 == actor then db.members[k].(isCurrent := k.0 == o) else db.members[k])
  }

  /** Deleting an organisation deletes its memberships and invitations, and deletes or detaches its configs. */
  function WithoutOrganisation(db: Db, o: OrgId, dropConfigs: bool): Db {
    db.(organisations := db.organisations - {o},
        members := map k | k in db.members && k.0 != o :: db.members[k],
        invitations := map k | k in db.invitations && k.0 != o :: db.invitations[k],
        configs := map c | c in db.configs && !(dropConfigs && db.configs[c].organisationId == Some(o)) ::
                     if db.configs[c].organisationId == Some(o) then db.configs[c].(organisationId := None)
                     else db.configs[c],
        access := map k | k in db.access && !(dropConfigs && IsConfigOf(db, k.0, o)) :: db.access[k])
  }

  /** A user who lost the current membership gets the chosen remaining one as current. */
  function Promoted(db: Db, u: UserId, wasCurrent: bool, next: Option<OrgId>): Db {
    if wasCurrent && next.Some? && (next.value, u) in db.members then MadeCurrent(db, next.value, u) else db
  }

  ghost predicate ChoosesOldest(db: Db, u: UserId, next: Option<OrgId>) {
    match next
    case Some(o) => IsOldest(db, u, o)
    case None => !BelongsSomewhere(db, u)
  }

  function WasCurrent(db: Db, o: OrgId, u: UserId): bool {
    (o, u) in db.members && db.members[(o, u)].isCurrent
  }

  predicate MayDelete(db: Db, actor: UserId, o: OrgId) {
    o in db.organisations && db.organisations[o].createdByUserId == actor && MemberCount(db, o) <= 1
  }

  function WithoutAccess(db: Db, o: OrgId, u: UserId): Db {
    db.(access := map k | k in db.access && !(k.1 == u && IsConfigOf(db, k.0, o)) :: db.access[k])
  }

  function WithoutMember(db: Db, o: OrgId, u: UserId): Db {
    db.(members := db.members - {(o, u)})
  }

  /** Who may remove whom: anyone but the creator may leave, admins remove members, the owner removes admins too. */
  predicate MayRemove(db: Db, actor: UserId, o: OrgId, u: UserId) {
    && o in db.organisations
    && u != db.organisations[o].createdByUserId
    && (actor != u ==>
          && IsAdminOrOwner(db, o, actor)
          && (IsAdminOrOwner(db, o, u) ==> db.members[(o, actor)].role == Owner))
  }

  /** Only the owner changes an admin's role, nobody changes the creator's, and nobody is made owner. */
  predicate MayUpdateRole(db: Db, actor: UserId, o: OrgId, u: UserId, role: Role) {
    && o in db.organisations
    && role != Owner
    && u != db.organisations[o].createdByUserId
    && IsAdminOrOwner(db, o, actor)
    && (o, u) in db.members
    && (db.members[(o, u)].role == Admin ==> db.members[(o, actor)].role == Owner)
  }

  function RoleUpdated(db: Db, o: OrgId, u: UserId, role: Role): Db
    requires (o, u) in db.members
  {
    db.(members := db.members[(o, u) := db.members[(o, u)].(role := role)])
  }

  predicate MayAccept(db: Db, actor: UserId, o: OrgId, email: Email) {
    (o, email) in db.invitations && Owns(db, actor, email) && (o, actor) !in db.members
  }

  function WithoutInvitation(db: Db, o: OrgId, email: Email): Db {
    db.(invitations := db.invitations - {(o, email)})
  }

  /** Invitations turned into memberships one after another, up to the first that fails because the user is a member. */
  function InvitationsMoved(db: Db, u: UserId, email: Email, joins: seq<Join>): Db
    decreases |joins|
  {
    if joins == [] || (joins[0].org, u) in db.members then db
    else
      var joined := JoinedAndShared(db, joins[0].org, u, joins[0].configs);
      InvitationsMoved(WithoutInvitation(joined, joins[0].org, email), u, email, joins[1..])
  }

  /**
   The tables after an operation. A refused operation leaves them as they are, but for what it did before
   it failed.
   */
  function Apply(db: Db, op: Operation): Db {
    match op
    case Create(actor, o, name, slug, admissions) =>
      Migrated(Created(db, actor, o, name, slug), o, actor, admissions)
    case SetCurrent(actor, o) =>
      if (o, actor) in db.members then CurrentSet(db, actor, o) else db
    case Delete(actor, o, dropConfigs, next) =>
      if MayDelete(db, actor, o) then
        Promoted(WithoutOrganisation(db, o, dropConfigs), actor, WasCurrent(db, o, actor), next)
      else db
    case Invite(actor, o, email, invitee, configs) =>
      if !IsAdminOrOwner(db, o, actor) then db
      else if invitee.Some? then
        if (o, invitee.value) in db.members then db else JoinedAndShared(db, o, invitee.value, configs)
      else if (o, email) in db.invitations then db
      else db.(invitations := db.invitations[(o, email) := actor])
    case Accept(actor, o, email, configs) =>
      if MayAccept(db, actor, o, email) then WithoutInvitation(JoinedAndShared(db, o, actor, configs), o, email)
      else db
    case Decline(actor, o, email) =>
      if (o, email) in db.invitations && Owns(db, actor, email) then WithoutInvitation(db, o, email) else db
    case Cancel(actor, o, email) =>
      if (o, email) in db.invitations && IsAdminOrOwner(db, o, actor) then WithoutInvitation(db, o, email) else db
    case MoveInvitations(actor, email, joins) => InvitationsMoved(db, actor, email, joins)
    case Remove(actor, o, u, next) =>
      if !MayRemove(db, actor, o, u) then db
      else if (o, u) !in db.members then WithoutAccess(db, o, u)
      else Promoted(WithoutMember(WithoutAccess(db, o, u), o, u), u, WasCurrent(db, o, u), next)
    case UpdateRole(actor, o, u, role) =>
      if MayUpdateRole(db, actor, o, u, role) then
        RoleUpdated(db, o, u, role)
      else db
  }

  /** The operation goes through; every other one ends in an error. */
  predicate Succeeds(db: Db, op: Operation) {
    match op
    case Create(actor, o, name, slug, _) =>
      var created := Created(db, actor, o, name, slug);
      Orphans(created, actor) == {} || Migrates(created, o, actor)
    case SetCurrent(actor, o) => (o, actor) in db.members
    case Delete(actor, o, _, _) => MayDelete(db, actor, o)
    case Invite(actor, o, email, invitee, _) =>
      && IsAdminOrOwner(db, o, actor)
      && if invitee.Some? then (o, invitee.value) !in db.members else (o, email) !in db.invitations
    case Accept(actor, o, email, _) => MayAccept(db, actor, o, email)
    case Decline(actor, o, email) => (o, email) in db.invitations && Owns(db, actor, email)
    case Cancel(actor, o, email) => (o, email) in db.invitations && IsAdminOrOwner(db, o, actor)
    case MoveInvitations(actor, _, joins) => forall j <- joins :: (j.org, actor) !in db.members
    case Remove(actor, o, u, _) => MayRemove(db, actor, o, u) && (o, u) in db.members
    case UpdateRole(actor, o, u, role) => MayUpdateRole(db, actor, o, u, role)
  }

  /** The choices an operation carries are ones the database can make. */
  ghost predicate Legit(db: Db, op: Operation) {
    match op
    case Create(actor, o, name, slug, admissions) =>
      && o !in db.organisations
      && (Migrates(Created(db, actor, o, name, slug), o, actor) ==>
            ListsSharers(Created(db, actor, o, name, slug), actor, o, admissions))
    case Delete(actor, o, dropConfigs, next) => ChoosesOldest(WithoutOrganisation(db, o, dropConfigs), actor, next)
    case Invite(_, o, email, invitee, configs) => Finds(db, email, invitee) && ListsConfigs(db, o, configs)
    case Accept(_, o, _, configs) => ListsConfigs(db, o, configs)
    case MoveInvitations(actor, email, joins) => ListsInvitations(db, actor, email, joins)
    case Remove(_, o, u, next) => ChoosesOldest(WithoutMember(WithoutAccess(db, o, u), o, u), u, next)
    case _ => true
  }

  /**
   The admissions of a migration: every other user sharing an orphan once, each with all configs of the
   organisation.
   */
  ghost predicate ListsSharers(db: Db, u: UserId, o: OrgId, admissions: seq<Admission>) {
    var orphans := Orphans(db, u);
    AdmitsEach(Moved(db, o, orphans), o, admissions, SharersOf(db, u, orphans))
  }

  /** The admissions are those of the given users, each once, each with all configs of the organisation. */
  ghost predicate AdmitsEach(db: Db, o: OrgId, admissions: seq<Admission>, users: set<UserId>) {
    && (forall i | 0 <= i < |admissions| :: ListsConfigs(db, o, admissions[i].configs))
    && (forall i, j | 0 <= i < j < |admissions| :: admissions[i].user != admissions[j].user)
    && (forall i | 0 <= i < |admissions| :: admissions[i].user in users)
    && (forall s <- users :: exists i | 0 <= i < |admissions| :: admissions[i].user == s)
  }

  /**
   The invitations of an email that are moved, each once, with the configs of its organisation: all of
   them, or those up to one that fails.
   */
  ghost predicate ListsInvitations(db: Db, u: UserId, email: Email, joins: seq<Join>) {
    && (forall i | 0 <= i < |joins| ::
          (joins[i].org, email) in db.invitations && ListsConfigs(db, joins[i].org, joins[i].configs))
    && (forall i, j | 0 <= i < j < |joins| :: joins[i].org != joins[j].org)
    && ((joins != [] && (joins[|joins| - 1].org, u) in db.members)
        || forall k <- db.invitations :: k.1 == email ==> exists i | 0 <= i < |joins| :: joins[i].org == k.0)
  }
}
