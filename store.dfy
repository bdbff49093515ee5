/**
 * The relational store as in-memory tables, and the lookups and joins the handlers run
 * against it. The access chain (task → project → organization → membership) is defined
 * here once and used by every handler.
 */
module Store {
  import opened Wrappers
  import opened Uuids
  import opened Models
  import opened Seqs

  /** No two rows share a key: the store's primary-key and UNIQUE constraints. */
  ghost predicate UniqueBy<T, K>(s: seq<T>, f: T -> K) {
    forall i, j :: 0 <= i < j < |s| ==> f(s[i]) != f(s[j])
  }

  /** `SELECT ... WHERE key = $1` with `fetch_optional`: the first matching row. */
  function FindBy<T, K(==)>(s: seq<T>, f: T -> K, k: K): (r: Option<T>)
    ensures r.Some? ==> r.value in s && f(r.value) == k
    ensures r.None? <==> forall x :: x in s ==> f(x) != k
  {
    First(x => f(x) == k, s)
  }

  /** Under a uniqueness constraint the matching row is THE row with that key. */
  lemma FindByUnique<T, K>(s: seq<T>, f: T -> K, x: T)
    requires UniqueBy(s, f) && x in s
    ensures FindBy(s, f, f(x)) == Some(x)
  {
    var r := FindBy(s, f, f(x));
    var i :| 0 <= i < |s| && s[i] == r.value;
    var j :| 0 <= j < |s| && s[j] == x;
  }

  /** `DELETE ... WHERE key = $1`: every row with that key goes, the rest keep their order. */
  function RemoveBy<T, K(==)>(s: seq<T>, f: T -> K, k: K): (r: seq<T>)
    ensures forall x :: x in r ==> x in s && f(x) != k
    ensures forall x :: x in s && f(x) != k ==> x in r
    ensures UniqueBy(s, f) ==> UniqueBy(r, f)
  {
    var r := Filter(x => f(x) != k, s);
    assert UniqueBy(s, f) ==> UniqueBy(r, f) by {
      if UniqueBy(s, f) { FilterKeepsUnique(s, f, x => f(x) != k); }
    }
    r
  }

  lemma {:induction false} FilterKeepsUnique<T, K>(s: seq<T>, f: T -> K, p: T -> bool)
    requires UniqueBy(s, f)
    ensures UniqueBy(Filter(p, s), f)
  {
    if s != [] {
      FilterKeepsUnique(s[1..], f, p);
      if p(s[0]) {
        HeadKeyFresh(s, f);
        UniqueCons(s[0], Filter(p, s[1..]), f);
      }
    }
  }

  /** In a table without duplicate keys, the first row's key occurs nowhere after it. */
  lemma HeadKeyFresh<T, K>(s: seq<T>, f: T -> K)
    requires UniqueBy(s, f) && s != []
    ensures forall y :: y in s[1..] ==> f(y) != f(s[0])
  {
    forall y | y in s[1..] ensures f(y) != f(s[0]) {
      var k :| 0 <= k < |s[1..]| && s[1..][k] == y;
      assert s[k + 1] == y;
    }
  }

  lemma UniqueCons<T, K>(x: T, r: seq<T>, f: T -> K)
    requires UniqueBy(r, f)
    requires forall y :: y in r ==> f(y) != f(x)
    ensures UniqueBy([x] + r, f)
  {
    var s := [x] + r;
    forall i, j | 0 <= i < j < |s| ensures f(s[i]) != f(s[j]) {
      if i == 0 {
        assert s[j] == r[j - 1];
        assert s[j] in r;
      } else {
        assert s[i] == r[i - 1] && s[j] == r[j - 1];
      }
    }
  }

  lemma UniqueByAppend<T, K>(s: seq<T>, f: T -> K, x: T)
    requires UniqueBy(s, f)
    requires forall y :: y in s ==> f(y) != f(x)
    ensures UniqueBy(s + [x], f)
  {
    var s' := s + [x];
    forall i, j | 0 <= i < j < |s'| ensures f(s'[i]) != f(s'[j]) {
      if j == |s| { assert s'[i] in s; }
    }
  }

  lemma UniqueByReplace<T, K>(s: seq<T>, f: T -> K, i: nat, x: T)
    requires UniqueBy(s, f) && i < |s| && f(x) == f(s[i])
    ensures UniqueBy(s[i := x], f)
  {
  }

  /** `UPDATE ... WHERE key = $1` under a uniqueness constraint: only the row at that key is rewritten. */
  lemma ReplaceAtKey<T, K>(s: seq<T>, f: T -> K, i: nat, g: T -> T)
    requires UniqueBy(s, f) && i < |s|
    ensures |s[i := g(s[i])]| == |s|
    ensures forall j :: 0 <= j < |s| ==> s[i := g(s[i])][j] == if f(s[j]) == f(s[i]) then g(s[j]) else s[j]
  {
    forall j | 0 <= j < |s| && j != i
      ensures f(s[j]) != f(s[i])
    {
      if j < i {
        assert f(s[j]) != f(s[i]);
      } else {
        assert f(s[i]) != f(s[j]);
      }
    }
  }

  // Keys of the tables.

  function UserKey(u: User): Uuid { u.id }
  function UserEmail(u: User): string { u.email }
  function OrgKey(o: Organization): Uuid { o.id }
  function OrgSlug(o: Organization): string { o.slug }
  function MemberKey(m: OrganizationMember): Uuid { m.id }
  /** Membership is unique per (organization, user). */
  function MemberPair(m: OrganizationMember): (Uuid, Uuid) { (m.organizationId, m.userId) }
  function ProjectKey(p: Project): Uuid { p.id }
  /** Project slugs are unique per organization. */
  function ProjectSlug(p: Project): (Uuid, string) { (p.organizationId, p.slug) }
  function TaskKey(t: Task): Uuid { t.id }
  function CommentKey(c: TaskComment): Uuid { c.id }

  /** The caller's membership row in an organization. */
  function MembershipOf(members: seq<OrganizationMember>, orgId: Uuid, userId: Uuid): (r: Option<OrganizationMember>)
    ensures r.Some? ==> r.value in members && r.value.organizationId == orgId && r.value.userId == userId
    ensures r.None? <==> forall m :: m in members ==> m.organizationId != orgId || m.userId != userId
  {
    FindBy(members, MemberPair, (orgId, userId))
  }

  /**
   * The join `projects p JOIN organization_members om ON p.organization_id = om.organization_id
   * WHERE p.id = $1 AND om.user_id = $2`: the caller's role in the project's organization.
   */
  function ProjectAccess(projects: seq<Project>, members: seq<OrganizationMember>,
                         projectId: Uuid, userId: Uuid): (r: Option<string>)
    ensures r.Some? ==>
      exists p, m :: p in projects && m in members && p.id == projectId
        && m.organizationId == p.organizationId && m.userId == userId && m.role == r.value
    ensures (forall p :: p in projects ==> p.id != projectId) ==> r.None?
  {
    match FindBy(projects, ProjectKey, projectId)
    case None => None
    case Some(p) =>
      match MembershipOf(members, p.organizationId, userId)
      case None => None
      case Some(m) => Some(m.role)
  }

  /** The join from a task through its project to the caller's membership. */
  function TaskAccess(tasks: seq<Task>, projects: seq<Project>, members: seq<OrganizationMember>,
                      taskId: Uuid, userId: Uuid): (r: Option<string>)
    ensures r.Some? ==> exists t :: t in tasks && t.id == taskId && ProjectAccess(projects, members, t.projectId, userId) == r
    ensures (forall t :: t in tasks ==> t.id != taskId) ==> r.None?
  {
    match FindBy(tasks, TaskKey, taskId)
    case None => None
    case Some(t) => ProjectAccess(projects, members, t.projectId, userId)
  }

  /**
   * The access chain: the caller holds `role` for a project exactly when the project
   * exists and a membership row ties the caller to the project's organization with that role.
   */
  lemma ProjectAccessChain(projects: seq<Project>, members: seq<OrganizationMember>,
                           projectId: Uuid, userId: Uuid, role: string)
    requires UniqueBy(projects, ProjectKey) && UniqueBy(members, MemberPair)
    ensures ProjectAccess(projects, members, projectId, userId) == Some(role) <==>
      exists p, m :: p in projects && m in members && p.id == projectId
        && m.organizationId == p.organizationId && m.userId == userId && m.role == role
  {
    if exists p, m :: p in projects && m in members && p.id == projectId
        && m.organizationId == p.organizationId && m.userId == userId && m.role == role
    {
      var p, m :| p in projects && m in members && p.id == projectId
        && m.organizationId == p.organizationId && m.userId == userId && m.role == role;
      FindByUnique(projects, ProjectKey, p);
      FindByUnique(members, MemberPair, m);
    }
  }

  /** The access chain for a task: task → project → organization → membership. */
  lemma TaskAccessChain(tasks: seq<Task>, projects: seq<Project>, members: seq<OrganizationMember>,
                        taskId: Uuid, userId: Uuid, role: string)
    requires UniqueBy(tasks, TaskKey) && UniqueBy(projects, ProjectKey) && UniqueBy(members, MemberPair)
    ensures TaskAccess(tasks, projects, members, taskId, userId) == Some(role) <==>
      exists t, p, m :: t in tasks && p in projects && m in members && t.id == taskId
        && p.id == t.projectId && m.organizationId == p.organizationId
        && m.userId == userId && m.role == role
  {
    if exists t, p, m :: t in tasks && p in projects && m in members && t.id == taskId
        && p.id == t.projectId && m.organizationId == p.organizationId
        && m.userId == userId && m.role == role
    {
      var t, p, m :| t in tasks && p in projects && m in members && t.id == taskId
        && p.id == t.projectId && m.organizationId == p.organizationId
        && m.userId == userId && m.role == role;
      FindByUnique(tasks, TaskKey, t);
      ProjectAccessChain(projects, members, t.projectId, userId, role);
    }
    if TaskAccess(tasks, projects, members, taskId, userId) == Some(role) {
      var t := FindBy(tasks, TaskKey, taskId).value;
      ProjectAccessChain(projects, members, t.projectId, userId, role);
    }
  }

  /** The tables. Each handler reads or rewrites them whole; ids and the clock come from the caller. */
  class Db {
    var users: seq<User>
    var organizations: seq<Organization>
    var members: seq<OrganizationMember>
    var projects: seq<Project>
    var tasks: seq<Task>
    var comments: seq<TaskComment>

    /** The schema's key and uniqueness constraints, and membership rows pointing at organizations. */
    ghost predicate Valid()
      reads this
    {
      && UniqueBy(users, UserKey) && UniqueBy(users, UserEmail)
      && UniqueBy(organizations, OrgKey) && UniqueBy(organizations, OrgSlug)
      && UniqueBy(members, MemberKey) && UniqueBy(members, MemberPair)
      && (forall m :: m in members ==> FindBy(organizations, OrgKey, m.organizationId).Some?)
      && UniqueBy(projects, ProjectKey) && UniqueBy(projects, ProjectSlug)
      && UniqueBy(tasks, TaskKey)
      && UniqueBy(comments, CommentKey)
    }

    constructor ()
      ensures Valid()
      ensures users == [] && organizations == [] && members == []
      ensures projects == [] && tasks == [] && comments == []
    {
      users, organizations, members := [], [], [];
      projects, tasks, comments := [], [], [];
    }

    // Each write replaces one table and keeps the constraints; the other tables stay as they are.

    method SetUsers(us: seq<User>)
      requires Valid() && UniqueBy(us, UserKey) && UniqueBy(us, UserEmail)
      modifies this
      ensures Valid() && users == us
      ensures organizations == old(organizations) && members == old(members)
      ensures projects == old(projects) && tasks == old(tasks) && comments == old(comments)
    {
      users := us;
    }

    method SetOrganizations(os: seq<Organization>)
      requires Valid() && UniqueBy(os, OrgKey) && UniqueBy(os, OrgSlug)
      requires forall m :: m in members ==> FindBy(os, OrgKey, m.organizationId).Some?
      modifies this
      ensures Valid() && organizations == os
      ensures users == old(users) && members == old(members)
      ensures projects == old(projects) && tasks == old(tasks) && comments == old(comments)
    {
      organizations := os;
    }

    method SetMembers(ms: seq<OrganizationMember>)
      requires Valid() && UniqueBy(ms, MemberKey) && UniqueBy(ms, MemberPair)
      requires forall m :: m in ms ==> FindBy(organizations, OrgKey, m.organizationId).Some?
      modifies this
      ensures Valid() && members == ms
      ensures users == old(users) && organizations == old(organizations)
      ensures projects == old(projects) && tasks == old(tasks) && comments == old(comments)
    {
      members := ms;
    }

    method SetProjects(ps: seq<Project>)
      requires Valid() && UniqueBy(ps, ProjectKey) && UniqueBy(ps, ProjectSlug)
      modifies this
      ensures Valid() && projects == ps
      ensures users == old(users) && organizations == old(organizations) && members == old(members)
      ensures tasks == old(tasks) && comments == old(comments)
    {
      projects := ps;
    }

    method SetTasks(ts: seq<Task>)
      requires Valid() && UniqueBy(ts, TaskKey)
      modifies this
      ensures Valid() && tasks == ts
      ensures users == old(users) && organizations == old(organizations) && members == old(members)
      ensures projects == old(projects) && comments == old(comments)
    {
      tasks := ts;
    }

    method SetComments(cs: seq<TaskComment>)
      requires Valid() && UniqueBy(cs, CommentKey)
      modifies this
      ensures Valid() && comments == cs
      ensures users == old(users) && organizations == old(organizations) && members == old(members)
      ensures projects == old(projects) && tasks == old(tasks)
    {
      comments := cs;
    }
  }
}
