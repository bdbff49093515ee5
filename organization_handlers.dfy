/** The organization endpoints: create (slug rules, owner membership), list mine, get one, list members. */
module OrganizationHandlers {
  import opened Wrappers
  import opened Text
  import opened Errors
  import Uuids
  import opened Models
  import opened Seqs
  import opened Sorting
  import opened Store
  import Roles

  const SlugMessage := "Slug can only contain letters, numbers, and hyphens"
  const NoAccessMessage := "Organization not found or you don't have access"

  /** The caller's id; in these handlers a malformed id is a server error (500), not a 401. */
  function ParseCaller(auth: AuthUser): (r: Result<Uuids.Uuid, AppError>)
    ensures r.Ok? <==> Uuids.Parse(auth.userId).Some?
    ensures r.Ok? ==> r.value == Uuids.Parse(auth.userId).value
    ensures r.Err? ==> r.error == InternalServerError("Invalid user ID")
  {
    match Uuids.Parse(auth.userId)
    case Some(id) => Ok(id)
    case None => Err(InternalServerError("Invalid user ID"))
  }

  function ToOrganizationResponse(o: Organization, role: string): OrganizationResponse {
    OrganizationResponse(o.id, o.name, o.slug, o.description, o.logoUrl, o.website, o.isActive, Some(role))
  }

  /** The row the INSERT creates; logo, website, active flag and timestamps take the table defaults. */
  function NewOrganization(id: Uuids.Uuid, req: CreateOrganizationRequest, now: Time): Organization {
    Organization(id, req.name, req.slug, req.description, None, None, true, now, now)
  }

  /** The checks `create_organization` makes before writing: characters first, then uniqueness. */
  function CheckNewOrganization(orgs: seq<Organization>, slug: string): (r: Option<AppError>)
    ensures r.None? <==> AllSlugChars(slug) && forall o :: o in orgs ==> o.slug != slug
    ensures !AllSlugChars(slug) ==> r == Some(Validation(SlugMessage))
    ensures AllSlugChars(slug) && r.Some? ==>
      r == Some(Conflict("Organization with slug '" + slug + "' already exists"))
  {
    if !AllSlugChars(slug) then Some(Validation(SlugMessage))
    else if FindBy(orgs, OrgSlug, slug).Some? then
      Some(Conflict("Organization with slug '" + slug + "' already exists"))
    else None
  }

  /** The empty slug passes the character check (it is only caught by uniqueness, if at all). */
  lemma EmptySlugPassesCharacterCheck(orgs: seq<Organization>)
    requires forall o :: o in orgs ==> o.slug != ""
    ensures CheckNewOrganization(orgs, "").None?
  {
  }

  /** `create_organization`: the organization row, then the caller's "owner" membership; 201 Created. */
  method CreateOrganization(db: Db, auth: AuthUser, req: CreateOrganizationRequest,
                            orgId: Uuids.Uuid, memberId: Uuids.Uuid, now: Time)
    returns (r: Result<(int, OrganizationResponse), AppError>)
    requires db.Valid()
    requires forall o :: o in db.organizations ==> o.id != orgId
    requires forall m :: m in db.members ==> m.id != memberId
    modifies db
    ensures db.Valid()
    ensures db.users == old(db.users) && db.projects == old(db.projects)
    ensures db.tasks == old(db.tasks) && db.comments == old(db.comments)
    ensures ParseCaller(auth).Err? ==> r == Err(ParseCaller(auth).error)
    ensures ParseCaller(auth).Ok? && CheckNewOrganization(old(db.organizations), req.slug).Some? ==>
      r == Err(CheckNewOrganization(old(db.organizations), req.slug).value)
    ensures r.Err? ==> db.organizations == old(db.organizations) && db.members == old(db.members)
    ensures r.Ok? <==> ParseCaller(auth).Ok? && CheckNewOrganization(old(db.organizations), req.slug).None?
    ensures r.Ok? ==>
      && db.organizations == old(db.organizations) + [NewOrganization(orgId, req, now)]
      && db.members == old(db.members) + [OrganizationMember(memberId, orgId, ParseCaller(auth).value, "owner", None, now)]
      && r.value == (201, ToOrganizationResponse(NewOrganization(orgId, req, now), "owner"))
  {
    var caller := ParseCaller(auth);
    if caller.Err? {
      return Err(caller.error);
    }
    var userId := caller.value;
    var refused := CheckNewOrganization(db.organizations, req.slug);
    if refused.Some? {
      return Err(refused.value);
    }
    var org := NewOrganization(orgId, req, now);
    UniqueByAppend(db.organizations, OrgKey, org);
    UniqueByAppend(db.organizations, OrgSlug, org);
    db.SetOrganizations(db.organizations + [org]);

    var owner := Roles.AsStr(Roles.Owner);
    var membership := OrganizationMember(memberId, org.id, userId, owner, None, now);
    UniqueByAppend(db.members, MemberKey, membership);
    UniqueByAppend(db.members, MemberPair, membership);
    FindByUnique(db.organizations, OrgKey, org);
    db.SetMembers(db.members + [membership]);
    r := Ok((201, ToOrganizationResponse(org, owner)));
  }

  /** The join rows of `get_my_organizations`, before ordering: active organizations with the caller's role. */
  function JoinMine(orgs: seq<Organization>, members: seq<OrganizationMember>, userId: Uuids.Uuid)
    : seq<(Organization, string)>
  {
    if members == [] then []
    else
      var rest := JoinMine(orgs, members[1..], userId);
      var m := members[0];
      if m.userId != userId then rest
      else match FindBy(orgs, OrgKey, m.organizationId)
        case Some(o) => if o.isActive then [(o, m.role)] + rest else rest
        case None => rest
  }

  /** ORDER BY o.created_at DESC. */
  function NewestFirst(row: (Organization, string)): Key {
    Key(-row.0.createdAt, 0)
  }

  function MyOrganizationRows(orgs: seq<Organization>, members: seq<OrganizationMember>, userId: Uuids.Uuid)
    : seq<(Organization, string)>
  {
    SortBy(JoinMine(orgs, members, userId), NewestFirst)
  }

  lemma {:induction false} JoinMineExact(orgs: seq<Organization>, members: seq<OrganizationMember>,
                                         userId: Uuids.Uuid, o: Organization, role: string)
    requires UniqueBy(orgs, OrgKey)
    ensures (o, role) in JoinMine(orgs, members, userId) <==>
      o in orgs && o.isActive &&
      exists m :: m in members && m.organizationId == o.id && m.userId == userId && m.role == role
  {
    if members != [] {
      JoinMineExact(orgs, members[1..], userId, o, role);
      var m := members[0];
      if o in orgs {
        FindByUnique(orgs, OrgKey, o);
      }
      assert forall m' :: m' in members <==> m' == m || m' in members[1..];
    }
  }

  /**
   * `get_my_organizations` lists exactly the active organizations the caller belongs to,
   * each with the caller's role, newest first.
   */
  lemma MyOrganizationsExact(orgs: seq<Organization>, members: seq<OrganizationMember>,
                             userId: Uuids.Uuid, o: Organization, role: string)
    requires UniqueBy(orgs, OrgKey)
    ensures var rows := MyOrganizationRows(orgs, members, userId);
      (o, role) in rows <==>
        o in orgs && o.isActive &&
        exists m :: m in members && m.organizationId == o.id && m.userId == userId && m.role == role
    ensures var rows := MyOrganizationRows(orgs, members, userId);
      forall i, j :: 0 <= i < j < |rows| ==> rows[i].0.createdAt >= rows[j].0.createdAt
  {
    var join := JoinMine(orgs, members, userId);
    var rows := MyOrganizationRows(orgs, members, userId);
    JoinMineExact(orgs, members, userId, o, role);
    assert (o, role) in rows <==> (o, role) in multiset(rows);
    assert (o, role) in join <==> (o, role) in multiset(join);
    forall i, j | 0 <= i < j < |rows| ensures rows[i].0.createdAt >= rows[j].0.createdAt {
      assert KeyLe(NewestFirst(rows[i]), NewestFirst(rows[j]));
    }
  }

  /** `get_my_organizations`. */
  function GetMyOrganizations(db: Db, auth: AuthUser): (r: Result<seq<OrganizationResponse>, AppError>)
    reads db
    ensures ParseCaller(auth).Err? ==> r == Err(InternalServerError("Invalid user ID"))
    ensures ParseCaller(auth).Ok? ==> r.Ok?
    ensures r.Ok? ==>
      var rows := MyOrganizationRows(db.organizations, db.members, ParseCaller(auth).value);
      |r.value| == |rows| &&
      forall i :: 0 <= i < |rows| ==> r.value[i] == ToOrganizationResponse(rows[i].0, rows[i].1)
  {
    match ParseCaller(auth)
    case Err(e) => Err(e)
    case Ok(userId) =>
      Ok(Map((row: (Organization, string)) => ToOrganizationResponse(row.0, row.1),
             MyOrganizationRows(db.organizations, db.members, userId)))
  }

  /** `SELECT * FROM organizations WHERE id = $1 AND is_active = true`. */
  function ActiveKey(o: Organization): (Uuids.Uuid, bool) { (o.id, o.isActive) }

  /** `get_organization`: membership first (a non-member learns nothing), then the active row. */
  function GetOrganization(db: Db, auth: AuthUser, orgId: Uuids.Uuid): (r: Result<OrganizationResponse, AppError>)
    reads db
    ensures ParseCaller(auth).Err? ==> r == Err(InternalServerError("Invalid user ID"))
    ensures ParseCaller(auth).Ok? && MembershipOf(db.members, orgId, ParseCaller(auth).value).None? ==>
      r == Err(NotFound(NoAccessMessage))
    ensures r.Ok? <==>
      && ParseCaller(auth).Ok?
      && MembershipOf(db.members, orgId, ParseCaller(auth).value).Some?
      && exists o :: o in db.organizations && o.id == orgId && o.isActive
    ensures r.Err? ==> r.error.NotFound? || r.error.InternalServerError?
    ensures
      && ParseCaller(auth).Ok?
      && MembershipOf(db.members, orgId, ParseCaller(auth).value).Some?
      && (forall o :: o in db.organizations ==> o.id != orgId || !o.isActive)
      ==> r == Err(NotFound("Organization not found"))
    ensures r.Ok? ==>
      && r.value.id == orgId && r.value.isActive
      && r.value.role == Some(MembershipOf(db.members, orgId, ParseCaller(auth).value).value.role)
      && exists o :: o in db.organizations && o.id == orgId && o.isActive &&
           r.value == ToOrganizationResponse(o, MembershipOf(db.members, orgId, ParseCaller(auth).value).value.role)
  {
    match ParseCaller(auth)
    case Err(e) => Err(e)
    case Ok(userId) =>
      match MembershipOf(db.members, orgId, userId)
      case None => Err(NotFound(NoAccessMessage))
      case Some(member) =>
        match FindBy(db.organizations, ActiveKey, (orgId, true))
        case None => Err(NotFound("Organization not found"))
        case Some(org) => Ok(ToOrganizationResponse(org, member.role))
  }

  /** One row of the members join. */
  function ToMemberResponse(m: OrganizationMember, u: User): OrganizationMemberResponse {
    OrganizationMemberResponse(m.id, m.userId, u.email, u.firstName, u.lastName, m.role, m.joinedAt)
  }

  /** `organization_members om JOIN users u ON om.user_id = u.id WHERE om.organization_id = $1`. */
  function JoinMembers(members: seq<OrganizationMember>, users: seq<User>, orgId: Uuids.Uuid)
    : seq<OrganizationMemberResponse>
  {
    if members == [] then []
    else
      var rest := JoinMembers(members[1..], users, orgId);
      var m := members[0];
      if m.organizationId != orgId then rest
      else match FindBy(users, UserKey, m.userId)
        case Some(u) => [ToMemberResponse(m, u)] + rest
        case None => rest
  }

  /** ORDER BY om.joined_at ASC. */
  function EarliestJoined(row: OrganizationMemberResponse): Key {
    Key(row.joinedAt, 0)
  }

  lemma {:induction false} JoinMembersExact(members: seq<OrganizationMember>, users: seq<User>,
                                            orgId: Uuids.Uuid, row: OrganizationMemberResponse)
    requires UniqueBy(users, UserKey)
    ensures row in JoinMembers(members, users, orgId) <==>
      exists m, u :: m in members && u in users && m.organizationId == orgId && u.id == m.userId
        && row == ToMemberResponse(m, u)
  {
    if members != [] {
      JoinMembersExact(members[1..], users, orgId, row);
      var m := members[0];
      assert forall m' :: m' in members <==> m' == m || m' in members[1..];
      if exists u :: u in users && u.id == m.userId {
        var u :| u in users && u.id == m.userId;
        FindByUnique(users, UserKey, u);
      }
    }
  }

  /** `get_organization_members`: NotFound for a non-member; otherwise every member of the organization, earliest first. */
  function GetOrganizationMembers(db: Db, auth: AuthUser, orgId: Uuids.Uuid)
    : (r: Result<seq<OrganizationMemberResponse>, AppError>)
    reads db
    ensures ParseCaller(auth).Err? ==> r == Err(InternalServerError("Invalid user ID"))
    ensures ParseCaller(auth).Ok? ==>
      (r.Err? <==> MembershipOf(db.members, orgId, ParseCaller(auth).value).None?)
    ensures ParseCaller(auth).Ok? && r.Err? ==> r.error == NotFound(NoAccessMessage)
    ensures r.Ok? ==> SortedBy(r.value, EarliestJoined)
    ensures r.Ok? ==> multiset(r.value) == multiset(JoinMembers(db.members, db.users, orgId))
  {
    match ParseCaller(auth)
    case Err(e) => Err(e)
    case Ok(userId) =>
      if MembershipOf(db.members, orgId, userId).None? then Err(NotFound(NoAccessMessage))
      else Ok(SortBy(JoinMembers(db.members, db.users, orgId), EarliestJoined))
  }

  /** The listed members are exactly the organization's memberships joined with their users. */
  lemma MembersListedExact(members: seq<OrganizationMember>, users: seq<User>, orgId: Uuids.Uuid,
                           row: OrganizationMemberResponse)
    requires UniqueBy(users, UserKey)
    ensures var rows := SortBy(JoinMembers(members, users, orgId), EarliestJoined);
      row in rows <==>
        exists m, u :: m in members && u in users && m.organizationId == orgId && u.id == m.userId
          && row == ToMemberResponse(m, u)
  {
    var join := JoinMembers(members, users, orgId);
    var rows := SortBy(join, EarliestJoined);
    JoinMembersExact(members, users, orgId, row);
    assert row in rows <==> row in multiset(rows);
    assert row in join <==> row in multiset(join);
  }
}
