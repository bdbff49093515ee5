/** The stored entities, the request bodies and the response DTOs of the backend. */
module Models {
  import opened Wrappers
  import opened Uuids

  /** A UTC instant (a count of clock ticks). */
  type Time = int

  datatype User = User(
    id: Uuid, email: string, passwordHash: string,
    firstName: Option<string>, lastName: Option<string>,
    isActive: bool, isEmailVerified: bool, emailVerifiedAt: Option<Time>,
    lastLoginAt: Option<Time>, createdAt: Time, updatedAt: Time)

  datatype Organization = Organization(
    id: Uuid, name: string, slug: string, description: Option<string>,
    logoUrl: Option<string>, website: Option<string>, isActive: bool,
    createdAt: Time, updatedAt: Time)

  datatype OrganizationMember = OrganizationMember(
    id: Uuid, organizationId: Uuid, userId: Uuid, role: string,
    invitedBy: Option<Uuid>, joinedAt: Time)

  datatype Project = Project(
    id: Uuid, organizationId: Uuid, name: string, slug: string,
    description: Option<string>, status: string, color: Option<string>,
    createdBy: Uuid, createdAt: Time, updatedAt: Time)

  datatype Task = Task(
    id: Uuid, projectId: Uuid, title: string, description: Option<string>,
    status: string, priority: string, assignedTo: Option<Uuid>, createdBy: Uuid,
    dueDate: Option<Time>, completedAt: Option<Time>, position: int,
    createdAt: Time, updatedAt: Time)

  datatype TaskComment = TaskComment(
    id: Uuid, taskId: Uuid, userId: Uuid, content: string, createdAt: Time, updatedAt: Time)

  /** The authenticated subject, as the middleware stored it: an unparsed string. */
  datatype AuthUser = AuthUser(userId: string)

  // Request bodies

  datatype CreateOrganizationRequest = CreateOrganizationRequest(
    name: string, slug: string, description: Option<string>)

  datatype CreateProjectRequest = CreateProjectRequest(
    name: string, slug: string, description: Option<string>,
    status: Option<string>, color: Option<string>)

  datatype UpdateProjectRequest = UpdateProjectRequest(
    name: Option<string>, description: Option<string>,
    status: Option<string>, color: Option<string>)

  datatype CreateTaskRequest = CreateTaskRequest(
    title: string, description: Option<string>, status: Option<string>,
    priority: Option<string>, assignedTo: Option<Uuid>, dueDate: Option<Time>)

  datatype UpdateTaskRequest = UpdateTaskRequest(
    title: Option<string>, description: Option<string>, status: Option<string>,
    priority: Option<string>, assignedTo: Option<Uuid>, dueDate: Option<Time>,
    position: Option<int>)

  datatype CreateCommentRequest = CreateCommentRequest(content: string)

  // Response DTOs

  datatype UserResponse = UserResponse(
    id: Uuid, email: string, firstName: Option<string>, lastName: Option<string>,
    isActive: bool, isEmailVerified: bool, createdAt: Time)

  /** The organization as answered to one caller, with that caller's role. */
  datatype OrganizationResponse = OrganizationResponse(
    id: Uuid, name: string, slug: string, description: Option<string>,
    logoUrl: Option<string>, website: Option<string>, isActive: bool, role: Option<string>)

  datatype OrganizationMemberResponse = OrganizationMemberResponse(
    id: Uuid, userId: Uuid, userEmail: string, userFirstName: Option<string>,
    userLastName: Option<string>, role: string, joinedAt: Time)

  datatype ProjectResponse = ProjectResponse(
    id: Uuid, organizationId: Uuid, name: string, slug: string,
    description: Option<string>, status: string, color: Option<string>,
    createdBy: Uuid, createdAt: Time, updatedAt: Time)

  datatype TaskResponse = TaskResponse(
    id: Uuid, projectId: Uuid, title: string, description: Option<string>,
    status: string, priority: string, assignedTo: Option<Uuid>, createdBy: Uuid,
    dueDate: Option<Time>, completedAt: Option<Time>, position: int,
    createdAt: Time, updatedAt: Time)

  datatype CommentResponse = CommentResponse(
    id: Uuid, taskId: Uuid, userId: Uuid, content: string, createdAt: Time, updatedAt: Time)

  // The `From` conversions

  function ToUserResponse(u: User): UserResponse {
    UserResponse(u.id, u.email, u.firstName, u.lastName, u.isActive, u.isEmailVerified, u.createdAt)
  }

  function ToProjectResponse(p: Project): ProjectResponse {
    ProjectResponse(p.id, p.organizationId, p.name, p.slug, p.description, p.status,
                    p.color, p.createdBy, p.createdAt, p.updatedAt)
  }

  function ToTaskResponse(t: Task): TaskResponse {
    TaskResponse(t.id, t.projectId, t.title, t.description, t.status, t.priority,
                 t.assignedTo, t.createdBy, t.dueDate, t.completedAt, t.position,
                 t.createdAt, t.updatedAt)
  }

  function ToCommentResponse(c: TaskComment): CommentResponse {
    CommentResponse(c.id, c.taskId, c.userId, c.content, c.createdAt, c.updatedAt)
  }

  /**
   * The user response carries nothing of the password hash or the login bookkeeping:
   * users that differ only there answer identically, and those it keeps are copied.
   */
  lemma UserResponseHidesSecrets(u: User, hash: string, lastLogin: Option<Time>)
    ensures ToUserResponse(u.(passwordHash := hash, lastLoginAt := lastLogin)) == ToUserResponse(u)
    ensures ToUserResponse(u).id == u.id && ToUserResponse(u).email == u.email
    ensures ToUserResponse(u).createdAt == u.createdAt
  {
  }

  /** Project, task and comment responses lose no field: the conversions are one-to-one. */
  lemma ResponsesLoseNothing(p: Project, q: Project, t: Task, t': Task, c: TaskComment, c': TaskComment)
    ensures ToProjectResponse(p) == ToProjectResponse(q) ==> p == q
    ensures ToTaskResponse(t) == ToTaskResponse(t') ==> t == t'
    ensures ToCommentResponse(c) == ToCommentResponse(c') ==> c == c'
  {
  }
}
