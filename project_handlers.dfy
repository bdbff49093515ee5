/** The project endpoints: create within an organization, list, get, update (COALESCE), delete. */
module ProjectHandlers {
  import opened Wrappers
  import opened Errors
  import Uuids
  import opened Models
  import opened Seqs
  import opened Sorting
  import opened Store

  const NotMemberMessage := "You are not a member of this organization"
  const NoProjectAccessMessage := "You don't have access to this project"
  const DefaultProjectStatus := "planning"
  const DefaultProjectColor := "#3B82F6"

  /** The caller's id; in the project and task handlers a malformed id is a 401. */
  function Caller(auth: AuthUser): (r: Result<Uuids.Uuid, AppError>)
    ensures r.Ok? <==> Uuids.Parse(auth.userId).Some?
    ensures r.Ok? ==> r.value == Uuids.Parse(auth.userId).value
    ensures r.Err? ==> r.error == Authentication("Invalid user ID")
  {
    match Uuids.Parse(auth.userId)
    case Some(id) => Ok(id)
    case None => Err(Authentication("Invalid user ID"))
  }

  /** The row `create_project` inserts. */
  function NewProject(id: Uuids.Uuid, orgId: Uuids.Uuid, req: CreateProjectRequest,
                      creator: Uuids.Uuid, now: Time): Project
  {
    Project(id, orgId, req.name, req.slug, req.description,
            req.status.GetOr(DefaultProjectStatus), Some(req.color.GetOr(DefaultProjectColor)),
            creator, now, now)
  }

  /** Whether the organization already has a project with this slug. */
  predicate SlugTaken(projects: seq<Project>, orgId: Uuids.Uuid, slug: string): (b: bool)
    ensures b <==> exists p :: p in projects && p.organizationId == orgId && p.slug == slug
  {
    var r := FindBy(projects, ProjectSlug, (orgId, slug));
    assert r.Some? ==> ProjectSlug(r.value) == (orgId, slug);
    assert forall p :: p in projects && p.organizationId == orgId && p.slug == slug ==>
      ProjectSlug(p) == (orgId, slug);
    r.Some?
  }

  /** The checks `create_project` makes before writing: the caller's membership first, then the slug. */
  function CheckNewProject(projects: seq<Project>, members: seq<OrganizationMember>, orgId: Uuids.Uuid,
                           userId: Uuids.Uuid, slug: string): (r: Option<AppError>)
    ensures MembershipOf(members, orgId, userId).None? ==> r == Some(Authorization(NotMemberMessage))
    ensures MembershipOf(members, orgId, userId).Some?
            && (exists p :: p in projects && p.organizationId == orgId && p.slug == slug) ==>
      r == Some(Conflict("A project with this slug already exists in this organization"))
    ensures r.None? <==>
      && MembershipOf(members, orgId, userId).Some?
      && forall p :: p in projects && p.organizationId == orgId ==> p.slug != slug
  {
    if MembershipOf(members, orgId, userId).None? then Some(Authorization(NotMemberMessage))
    else if SlugTaken(projects, orgId, slug) then
      Some(Conflict("A project with this slug already exists in this organization"))
    else None
  }

  /** The insert keeps the primary key and the per-organization slug unique. */
  lemma InsertKeepsProjectKeys(projects: seq<Project>, p: Project)
    requires UniqueBy(projects, ProjectKey) && UniqueBy(projects, ProjectSlug)
    requires forall q :: q in projects ==> q.id != p.id
    requires !exists q :: q in projects && q.organizationId == p.organizationId && q.slug == p.slug
    ensures UniqueBy(projects + [p], ProjectKey) && UniqueBy(projects + [p], ProjectSlug)
  {
    UniqueByAppend(projects, ProjectKey, p);
    UniqueByAppend(projects, ProjectSlug, p);
  }

  /** `create_project`: membership, then per-organization slug uniqueness, then the insert. */
  method CreateProject(db: Db, auth: AuthUser, orgId: Uuids.Uuid, req: CreateProjectRequest,
                       projectId: Uuids.Uuid, now: Time)
    returns (r: Result<(int, ProjectResponse), AppError>)
    requires db.Valid()
    requires forall p :: p in db.projects ==> p.id != projectId
    modifies db
    ensures db.Valid()
    ensures db.users == old(db.users) && db.organizations == old(db.organizations)
    ensures db.members == old(db.members) && db.tasks == old(db.tasks) && db.comments == old(db.comments)
    ensures Caller(auth).Err? ==> r == Err(Authentication("Invalid user ID"))
    ensures Caller(auth).Ok? && CheckNewProject(old(db.projects), db.members, orgId, Caller(auth).value, req.slug).Some? ==>
      r == Err(CheckNewProject(old(db.projects), db.members, orgId, Caller(auth).value, req.slug).value)
    ensures r.Ok? <==>
      Caller(auth).Ok? && CheckNewProject(old(db.projects), db.members, orgId, Caller(auth).value, req.slug).None?
    ensures r.Err? ==> db.projects == old(db.projects)
    ensures r.Ok? ==>
      && db.projects == old(db.projects) + [NewProject(projectId, orgId, req, Caller(auth).value, now)]
      && r.value.0 == 201
      && r.value.1 == ToProjectResponse(NewProject(projectId, orgId, req, Caller(auth).value, now))
  {
    var caller := Caller(auth);
    if caller.Err? {
      return Err(caller.error);
    }
    var userId := caller.value;
    var refused := CheckNewProject(db.projects, db.members, orgId, userId, req.slug);
    if refused.Some? {
      return Err(refused.value);
    }
    var project := NewProject(projectId, orgId, req, userId, now);
    InsertKeepsProjectKeys(db.projects, project);
    db.SetProjects(db.projects + [project]);
    r := Ok((201, ToProjectResponse(project)));
  }

  /** What the inserted row holds: the caller as creator, and the defaults for a missing status or colour. */
  lemma NewProjectDefaults(id: Uuids.Uuid, orgId: Uuids.Uuid, req: CreateProjectRequest,
                           creator: Uuids.Uuid, now: Time)
    ensures var p := NewProject(id, orgId, req, creator, now);
      && p.createdBy == creator && p.organizationId == orgId && p.createdAt == p.updatedAt == now
      && (req.status.None? ==> p.status == "planning")
      && (req.status.Some? ==> p.status == req.status.value)
      && (req.color.None? ==> p.color == Some("#3B82F6"))
      && (req.color.Some? ==> p.color == req.color)
  {
  }

  /** `WHERE organization_id = $1`. */
  function ProjectsOf(projects: seq<Project>, orgId: Uuids.Uuid): (r: seq<Project>)
    ensures forall p :: p in r <==> p in projects && p.organizationId == orgId
  {
    Filter((p: Project) => p.organizationId == orgId, projects)
  }

  /** ORDER BY created_at DESC. */
  function NewestProjectFirst(p: ProjectResponse): Key {
    Key(-p.createdAt, 0)
  }

  /** `get_organization_projects`: members only; every project of the organization, newest first. */
  function GetOrganizationProjects(db: Db, auth: AuthUser, orgId: Uuids.Uuid)
    : (r: Result<seq<ProjectResponse>, AppError>)
    reads db
    ensures Caller(auth).Err? ==> r == Err(Authentication("Invalid user ID"))
    ensures Caller(auth).Ok? ==>
      (r.Err? <==> MembershipOf(db.members, orgId, Caller(auth).value).None?)
    ensures Caller(auth).Ok? && r.Err? ==> r.error == Authorization(NotMemberMessage)
    ensures r.Ok? ==> forall i, j :: 0 <= i < j < |r.value| ==> r.value[i].createdAt >= r.value[j].createdAt
    ensures r.Ok? ==> forall p :: p in db.projects && p.organizationId == orgId ==> ToProjectResponse(p) in r.value
    ensures r.Ok? ==> forall x :: x in r.value ==>
      exists p :: p in db.projects && p.organizationId == orgId && x == ToProjectResponse(p)
    ensures r.Ok? ==> |r.value| == |ProjectsOf(db.projects, orgId)|
  {
    match Caller(auth)
    case Err(e) => Err(e)
    case Ok(userId) =>
      if MembershipOf(db.members, orgId, userId).None? then Err(Authorization(NotMemberMessage))
      else
        var listed := Map(ToProjectResponse, ProjectsOf(db.projects, orgId));
        var sorted := SortBy(listed, NewestProjectFirst);
        SortedNewestFirst(sorted);
        MappedListed(ToProjectResponse, ProjectsOf(db.projects, orgId), sorted);
        Ok(sorted)
  }

  lemma SortedNewestFirst(s: seq<ProjectResponse>)
    requires SortedBy(s, NewestProjectFirst)
    ensures forall i, j :: 0 <= i < j < |s| ==> s[i].createdAt >= s[j].createdAt
  {
    forall i, j | 0 <= i < j < |s| ensures s[i].createdAt >= s[j].createdAt {
      assert KeyLe(NewestProjectFirst(s[i]), NewestProjectFirst(s[j]));
    }
  }

  /** `get_project`: the project, if the caller belongs to its organization; NotFound otherwise. */
  function GetProject(db: Db, auth: AuthUser, projectId: Uuids.Uuid): (r: Result<ProjectResponse, AppError>)
    reads db
    ensures Caller(auth).Err? ==> r == Err(Authentication("Invalid user ID"))
    ensures Caller(auth).Ok? ==>
      (r.Err? <==> ProjectAccess(db.projects, db.members, projectId, Caller(auth).value).None?)
    ensures Caller(auth).Ok? && r.Err? ==> r.error == NotFound("Project not found")
    ensures r.Ok? ==> exists p :: p in db.projects && p.id == projectId && r.value == ToProjectResponse(p)
  {
    match Caller(auth)
    case Err(e) => Err(e)
    case Ok(userId) =>
      if ProjectAccess(db.projects, db.members, projectId, userId).None? then Err(NotFound("Project not found"))
      else Ok(ToProjectResponse(FindBy(db.projects, ProjectKey, projectId).value))
  }

  /** The row after `UPDATE projects SET name = COALESCE($2, name), ..., updated_at = NOW()`. */
  function ApplyProjectUpdate(p: Project, req: UpdateProjectRequest, now: Time): Project {
    p.(name := req.name.GetOr(p.name),
       description := if req.description.Some? then req.description else p.description,
       status := req.status.GetOr(p.status),
       color := if req.color.Some? then req.color else p.color,
       updatedAt := now)
  }

  /**
   * COALESCE semantics: a given field replaces the stored one, a missing field keeps it (so a
   * description or colour can never be cleared); identity, slug and creation data never change;
   * applying the same update twice is the same as once.
   */
  lemma ProjectUpdateCoalesces(p: Project, req: UpdateProjectRequest, now: Time)
    ensures var q := ApplyProjectUpdate(p, req, now);
      && q.id == p.id && q.organizationId == p.organizationId && q.slug == p.slug
      && q.createdBy == p.createdBy && q.createdAt == p.createdAt && q.updatedAt == now
      && q.name == (if req.name.Some? then req.name.value else p.name)
      && q.status == (if req.status.Some? then req.status.value else p.status)
      && q.description == (if req.description.Some? then req.description else p.description)
      && q.color == (if req.color.Some? then req.color else p.color)
      && (p.description.Some? ==> q.description.Some?)
      && (p.color.Some? ==> q.color.Some?)
      && ApplyProjectUpdate(q, req, now) == q
    ensures req == UpdateProjectRequest(None, None, None, None) ==>
      ApplyProjectUpdate(p, req, now) == p.(updatedAt := now)
  {
  }

  /** `UPDATE projects ... WHERE id = $1` rewrites the one row with that id, since ids are unique. */
  lemma UpdateOnlyProject(projects: seq<Project>, i: nat, projectId: Uuids.Uuid, req: UpdateProjectRequest, now: Time)
    requires UniqueBy(projects, ProjectKey) && i < |projects| && projects[i].id == projectId
    ensures |projects[i := ApplyProjectUpdate(projects[i], req, now)]| == |projects|
    ensures forall k :: 0 <= k < |projects| ==>
      projects[i := ApplyProjectUpdate(projects[i], req, now)][k]
        == if projects[k].id == projectId then ApplyProjectUpdate(projects[k], req, now) else projects[k]
  {
    ReplaceAtKey(projects, ProjectKey, i, (p: Project) => ApplyProjectUpdate(p, req, now));
  }

  /** The `UPDATE projects ... WHERE id = $1 RETURNING ...` of an existing project: that row is patched in place. */
  method StoreProjectUpdate(db: Db, projectId: Uuids.Uuid, req: UpdateProjectRequest, now: Time) returns (updated: Project)
    requires db.Valid()
    requires exists p :: p in db.projects && p.id == projectId
    modifies db
    ensures db.Valid()
    ensures db.users == old(db.users) && db.organizations == old(db.organizations)
    ensures db.members == old(db.members) && db.tasks == old(db.tasks) && db.comments == old(db.comments)
    ensures |db.projects| == |old(db.projects)|
    ensures forall k :: 0 <= k < |db.projects| ==>
      db.projects[k] == if old(db.projects)[k].id == projectId
                        then ApplyProjectUpdate(old(db.projects)[k], req, now)
                        else old(db.projects)[k]
    ensures exists p :: p in old(db.projects) && p.id == projectId && updated == ApplyProjectUpdate(p, req, now)
  {
    var found := FirstIndex((p: Project) => p.id == projectId, db.projects);
    if found.None? {
      assert false;
    }
    var i := found.value;
    ghost var before := db.projects;
    updated := ApplyProjectUpdate(db.projects[i], req, now);
    UniqueByReplace(db.projects, ProjectKey, i, updated);
    UniqueByReplace(db.projects, ProjectSlug, i, updated);
    UpdateOnlyProject(db.projects, i, projectId, req, now);
    db.SetProjects(db.projects[i := updated]);
    assert before[i] in before;
  }

  /** `update_project`: any member of the project's organization may update it. */
  method UpdateProject(db: Db, auth: AuthUser, projectId: Uuids.Uuid, req: UpdateProjectRequest, now: Time)
    returns (r: Result<ProjectResponse, AppError>)
    requires db.Valid()
    modifies db
    ensures db.Valid()
    ensures db.users == old(db.users) && db.organizations == old(db.organizations)
    ensures db.members == old(db.members) && db.tasks == old(db.tasks) && db.comments == old(db.comments)
    ensures Caller(auth).Err? ==> r == Err(Authentication("Invalid user ID"))
    ensures Caller(auth).Ok? ==>
      (r.Err? <==> ProjectAccess(old(db.projects), db.members, projectId, Caller(auth).value).None?)
    ensures Caller(auth).Ok? && r.Err? ==> r.error == Authorization(NoProjectAccessMessage)
    ensures r.Err? ==> db.projects == old(db.projects)
    ensures r.Ok? ==>
      && |db.projects| == |old(db.projects)|
      && (forall k :: 0 <= k < |db.projects| ==>
            db.projects[k] == if old(db.projects)[k].id == projectId
                              then ApplyProjectUpdate(old(db.projects)[k], req, now)
                              else old(db.projects)[k])
      && exists p :: p in old(db.projects) && p.id == projectId
           && r.value == ToProjectResponse(ApplyProjectUpdate(p, req, now))
  {
    var caller := Caller(auth);
    if caller.Err? {
      return Err(caller.error);
    }
    if ProjectAccess(db.projects, db.members, projectId, caller.value).None? {
      return Err(Authorization(NoProjectAccessMessage));
    }
    var updated := StoreProjectUpdate(db, projectId, req, now);
    r := Ok(ToProjectResponse(updated));
  }

  /** `delete_project`: owners and admins delete (204); other members are refused; outsiders see NotFound. */
  method DeleteProject(db: Db, auth: AuthUser, projectId: Uuids.Uuid) returns (r: Result<int, AppError>)
    requires db.Valid()
    modifies db
    ensures db.Valid()
    ensures db.users == old(db.users) && db.organizations == old(db.organizations)
    ensures db.members == old(db.members) && db.tasks == old(db.tasks) && db.comments == old(db.comments)
    ensures r.Ok? ==> r.value == 204
    ensures Caller(auth).Err? ==> r == Err(Authentication("Invalid user ID"))
    ensures Caller(auth).Ok? ==>
      r == DeleteProjectOutcome(ProjectAccess(old(db.projects), db.members, projectId, Caller(auth).value))
    ensures r.Ok? ==> db.projects == RemoveBy(old(db.projects), ProjectKey, projectId)
    ensures r.Err? ==> db.projects == old(db.projects)
  {
    var caller := Caller(auth);
    if caller.Err? {
      return Err(caller.error);
    }
    r := DeleteProjectOutcome(ProjectAccess(db.projects, db.members, projectId, caller.value));
    if r.Ok? {
      db.SetProjects(RemoveBy(db.projects, ProjectKey, projectId));
    }
  }

  /** The authorization decision of `delete_project`, from the caller's role in the project's organization. */
  function DeleteProjectOutcome(access: Option<string>): (r: Result<int, AppError>)
    ensures r.Ok? <==> access == Some("owner") || access == Some("admin")
    ensures access.None? ==> r == Err(NotFound("Project not found"))
    ensures access.Some? && r.Err? ==>
      r == Err(Authorization("Only organization owners and admins can delete projects"))
    ensures r.Ok? ==> r.value == 204
  {
    match access
      case Some(role) =>
        if role == "owner" || role == "admin" then Ok(204)
        else Err(Authorization("Only organization owners and admins can delete projects"))
      case None => Err(NotFound("Project not found"))
  }

  /** After a delete, the project is gone and every other project is still there. */
  lemma DeleteRemovesExactlyOne(projects: seq<Project>, projectId: Uuids.Uuid, p: Project)
    ensures p in RemoveBy(projects, ProjectKey, projectId) <==> p in projects && p.id != projectId
  {
  }
}
