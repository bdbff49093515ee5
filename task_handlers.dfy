/** The task and comment endpoints, gated by the task → project → organization → membership chain. */
module TaskHandlers {
  import opened Wrappers
  import opened Errors
  import Uuids
  import opened Models
  import opened Seqs
  import opened Sorting
  import opened Store
  import opened ProjectHandlers

  const NoTaskAccessMessage := "You don't have access to this task"
  const DefaultTaskStatus := "todo"
  const DefaultTaskPriority := "medium"

  /** Whether a task belongs to the given project and status group. */
  predicate InGroup(t: Task, projectId: Uuids.Uuid, status: string) {
    t.projectId == projectId && t.status == status
  }

  /** `MAX(position) ... WHERE project_id = $1 AND status = $2`; None when the group is empty. */
  function MaxPosition(tasks: seq<Task>, projectId: Uuids.Uuid, status: string): (r: Option<int>)
    ensures r.None? <==> forall t :: t in tasks ==> !InGroup(t, projectId, status)
    ensures r.Some? ==> forall t :: t in tasks && InGroup(t, projectId, status) ==> t.position <= r.value
    ensures r.Some? ==> exists t :: t in tasks && InGroup(t, projectId, status) && t.position == r.value
  {
    if tasks == [] then None
    else
      var rest := MaxPosition(tasks[1..], projectId, status);
      var t := tasks[0];
      assert forall u :: u in tasks <==> u == t || u in tasks[1..];
      if !InGroup(t, projectId, status) then rest
      else match rest
        case None => Some(t.position)
        case Some(m) => Some(if t.position > m then t.position else m)
  }

  /** `COALESCE(MAX(position), -1) + 1`: one past the group's largest position, or 0 for an empty group. */
  function NextPosition(tasks: seq<Task>, projectId: Uuids.Uuid, status: string): (r: int)
    ensures forall t :: t in tasks && InGroup(t, projectId, status) ==> t.position < r
    ensures (forall t :: t in tasks ==> !InGroup(t, projectId, status)) ==> r == 0
    ensures (exists t :: t in tasks && InGroup(t, projectId, status)) ==>
      exists t :: t in tasks && InGroup(t, projectId, status) && t.position == r - 1
  {
    MaxPosition(tasks, projectId, status).GetOr(-1) + 1
  }

  /** Three tasks created one after another in an empty status group get positions 0, 1 and 2. */
  lemma ThreeCreatesCount(tasks: seq<Task>, projectId: Uuids.Uuid, status: string, t1: Task, t2: Task, t3: Task)
    requires forall t :: t in tasks ==> !InGroup(t, projectId, status)
    requires InGroup(t1, projectId, status) && InGroup(t2, projectId, status) && InGroup(t3, projectId, status)
    requires t1.position == NextPosition(tasks, projectId, status)
    requires t2.position == NextPosition(tasks + [t1], projectId, status)
    requires t3.position == NextPosition(tasks + [t1, t2], projectId, status)
    ensures t1.position == 0 && t2.position == 1 && t3.position == 2
  {
    assert t1 in tasks + [t1];
    assert forall t :: t in tasks + [t1] && InGroup(t, projectId, status) ==> t == t1;
    assert t2 in tasks + [t1, t2];
    assert forall t :: t in tasks + [t1, t2] && InGroup(t, projectId, status) ==> t == t1 || t == t2;
  }

  /** The row `create_task` inserts: defaults for status and priority, the caller as creator, no completion. */
  function NewTask(id: Uuids.Uuid, projectId: Uuids.Uuid, req: CreateTaskRequest, creator: Uuids.Uuid,
                   position: int, now: Time): Task
  {
    Task(id, projectId, req.title, req.description, req.status.GetOr(DefaultTaskStatus),
         req.priority.GetOr(DefaultTaskPriority), req.assignedTo, creator, req.dueDate, None,
         position, now, now)
  }

  /** `create_task`: project access, defaults, the next position in the task's status group, the insert. */
  method CreateTask(db: Db, auth: AuthUser, projectId: Uuids.Uuid, req: CreateTaskRequest,
                    taskId: Uuids.Uuid, now: Time)
    returns (r: Result<(int, TaskResponse), AppError>)
    requires db.Valid()
    requires forall t :: t in db.tasks ==> t.id != taskId
    modifies db
    ensures db.Valid()
    ensures db.users == old(db.users) && db.organizations == old(db.organizations)
    ensures db.members == old(db.members) && db.projects == old(db.projects) && db.comments == old(db.comments)
    ensures Caller(auth).Err? ==> r == Err(Authentication("Invalid user ID"))
    ensures Caller(auth).Ok? ==>
      (r.Err? <==> ProjectAccess(db.projects, db.members, projectId, Caller(auth).value).None?)
    ensures Caller(auth).Ok? && r.Err? ==> r.error == Authorization(NoProjectAccessMessage)
    ensures r.Err? ==> db.tasks == old(db.tasks)
    ensures r.Ok? ==>
      var status := req.status.GetOr(DefaultTaskStatus);
      var task := NewTask(taskId, projectId, req, Caller(auth).value,
                          NextPosition(old(db.tasks), projectId, status), now);
      && db.tasks == old(db.tasks) + [task]
      && r.value == (201, ToTaskResponse(task))
  {
    var caller := Caller(auth);
    if caller.Err? {
      return Err(caller.error);
    }
    if ProjectAccess(db.projects, db.members, projectId, caller.value).None? {
      return Err(Authorization(NoProjectAccessMessage));
    }
    var status := req.status.GetOr(DefaultTaskStatus);
    var position := NextPosition(db.tasks, projectId, status);
    var task := NewTask(taskId, projectId, req, caller.value, position, now);
    UniqueByAppend(db.tasks, TaskKey, task);
    db.SetTasks(db.tasks + [task]);
    r := Ok((201, ToTaskResponse(task)));
  }

  /** What the inserted task holds: the defaults "todo" and "medium", the caller as creator, no completion time. */
  lemma NewTaskDefaults(id: Uuids.Uuid, projectId: Uuids.Uuid, req: CreateTaskRequest, creator: Uuids.Uuid,
                        position: int, now: Time)
    ensures var t := NewTask(id, projectId, req, creator, position, now);
      && t.createdBy == creator && t.projectId == projectId && t.completedAt.None?
      && t.status == (if req.status.Some? then req.status.value else "todo")
      && t.priority == (if req.priority.Some? then req.priority.value else "medium")
  {
  }

  /** `WHERE project_id = $1`. */
  function TasksOf(tasks: seq<Task>, projectId: Uuids.Uuid): (r: seq<Task>)
    ensures forall t :: t in r <==> t in tasks && t.projectId == projectId
  {
    Filter((t: Task) => t.projectId == projectId, tasks)
  }

  /** ORDER BY position ASC, created_at ASC. */
  function BoardOrder(t: TaskResponse): Key {
    Key(t.position, t.createdAt)
  }

  lemma SortedBoard(s: seq<TaskResponse>)
    requires SortedBy(s, BoardOrder)
    ensures forall i, j :: 0 <= i < j < |s| ==>
      s[i].position < s[j].position || (s[i].position == s[j].position && s[i].createdAt <= s[j].createdAt)
  {
    forall i, j | 0 <= i < j < |s|
      ensures s[i].position < s[j].position || (s[i].position == s[j].position && s[i].createdAt <= s[j].createdAt)
    {
      assert KeyLe(BoardOrder(s[i]), BoardOrder(s[j]));
    }
  }

  /** `get_project_tasks`: members only; exactly the project's tasks, by position then creation time. */
  function GetProjectTasks(db: Db, auth: AuthUser, projectId: Uuids.Uuid): (r: Result<seq<TaskResponse>, AppError>)
    reads db
    ensures Caller(auth).Err? ==> r == Err(Authentication("Invalid user ID"))
    ensures Caller(auth).Ok? ==>
      (r.Err? <==> ProjectAccess(db.projects, db.members, projectId, Caller(auth).value).None?)
    ensures Caller(auth).Ok? && r.Err? ==> r.error == Authorization(NoProjectAccessMessage)
    ensures r.Ok? ==> forall i, j :: 0 <= i < j < |r.value| ==>
      r.value[i].position < r.value[j].position ||
      (r.value[i].position == r.value[j].position && r.value[i].createdAt <= r.value[j].createdAt)
    ensures r.Ok? ==> forall t :: t in db.tasks && t.projectId == projectId ==> ToTaskResponse(t) in r.value
    ensures r.Ok? ==> forall x :: x in r.value ==>
      exists t :: t in db.tasks && t.projectId == projectId && x == ToTaskResponse(t)
    ensures r.Ok? ==> |r.value| == |TasksOf(db.tasks, projectId)|
  {
    match Caller(auth)
    case Err(e) => Err(e)
    case Ok(userId) =>
      if ProjectAccess(db.projects, db.members, projectId, userId).None? then
        Err(Authorization(NoProjectAccessMessage))
      else
        var listed := Map(ToTaskResponse, TasksOf(db.tasks, projectId));
        var sorted := SortBy(listed, BoardOrder);
        SortedBoard(sorted);
        MappedListed(ToTaskResponse, TasksOf(db.tasks, projectId), sorted);
        Ok(sorted)
  }

  /** `get_task`: NotFound both for a missing task and for a caller outside its organization. */
  function GetTask(db: Db, auth: AuthUser, taskId: Uuids.Uuid): (r: Result<TaskResponse, AppError>)
    reads db
    ensures Caller(auth).Err? ==> r == Err(Authentication("Invalid user ID"))
    ensures Caller(auth).Ok? ==>
      (r.Err? <==> TaskAccess(db.tasks, db.projects, db.members, taskId, Caller(auth).value).None?)
    ensures Caller(auth).Ok? && r.Err? ==> r.error == NotFound("Task not found")
    ensures r.Ok? ==> exists t :: t in db.tasks && t.id == taskId && r.value == ToTaskResponse(t)
  {
    match Caller(auth)
    case Err(e) => Err(e)
    case Ok(userId) =>
      if TaskAccess(db.tasks, db.projects, db.members, taskId, userId).None? then Err(NotFound("Task not found"))
      else Ok(ToTaskResponse(FindBy(db.tasks, TaskKey, taskId).value))
  }

  /** The completion stamp: "now" when the update sets status "done"; otherwise the stored value stays. */
  function CompletedAt(stored: Option<Time>, status: Option<string>, now: Time): (r: Option<Time>)
    ensures status == Some("done") ==> r == Some(now)
    ensures status != Some("done") ==> r == stored
    ensures stored.Some? ==> r.Some?
  {
    var stamp := if status.Some? && status.value == "done" then Some(now) else None;
    if stamp.Some? then stamp else stored
  }

  /** The row after `update_task`'s `UPDATE tasks SET title = COALESCE($2, title), ..., updated_at = NOW()`. */
  function ApplyTaskUpdate(t: Task, req: UpdateTaskRequest, now: Time): Task {
    t.(title := req.title.GetOr(t.title),
       description := if req.description.Some? then req.description else t.description,
       status := req.status.GetOr(t.status),
       priority := req.priority.GetOr(t.priority),
       assignedTo := if req.assignedTo.Some? then req.assignedTo else t.assignedTo,
       dueDate := if req.dueDate.Some? then req.dueDate else t.dueDate,
       position := req.position.GetOr(t.position),
       completedAt := CompletedAt(t.completedAt, req.status, now),
       updatedAt := now)
  }

  /**
   * Merge-patch: absent fields keep their value (so no optional field can be cleared), identity and
   * creation data never change, and completed_at is stamped exactly by a status "done".
   */
  lemma TaskUpdateCoalesces(t: Task, req: UpdateTaskRequest, now: Time)
    ensures var u := ApplyTaskUpdate(t, req, now);
      && u.id == t.id && u.projectId == t.projectId && u.createdBy == t.createdBy
      && u.createdAt == t.createdAt && u.updatedAt == now
      && u.title == (if req.title.Some? then req.title.value else t.title)
      && u.status == (if req.status.Some? then req.status.value else t.status)
      && u.priority == (if req.priority.Some? then req.priority.value else t.priority)
      && u.position == (if req.position.Some? then req.position.value else t.position)
      && u.description == (if req.description.Some? then req.description else t.description)
      && u.assignedTo == (if req.assignedTo.Some? then req.assignedTo else t.assignedTo)
      && u.dueDate == (if req.dueDate.Some? then req.dueDate else t.dueDate)
      && (t.description.Some? ==> u.description.Some?)
      && (t.assignedTo.Some? ==> u.assignedTo.Some?)
      && (t.dueDate.Some? ==> u.dueDate.Some?)
      && (t.completedAt.Some? ==> u.completedAt.Some?)
      && (req.status == Some("done") ==> u.completedAt == Some(now))
      && (req.status != Some("done") ==> u.completedAt == t.completedAt)
  {
  }

  /** A task moved back out of "done" keeps the completion time it was given. */
  lemma ReopenedTaskStaysCompleted(t: Task, now: Time, later: Time)
    ensures var done := ApplyTaskUpdate(t, UpdateTaskRequest(None, None, Some("done"), None, None, None, None), now);
      var reopened := ApplyTaskUpdate(done, UpdateTaskRequest(None, None, Some("todo"), None, None, None, None), later);
      reopened.status == "todo" && reopened.completedAt == Some(now)
  {
  }

  /** `UPDATE tasks ... WHERE id = $1` rewrites the one row with that id, since ids are unique. */
  lemma UpdateOnlyTask(tasks: seq<Task>, i: nat, taskId: Uuids.Uuid, req: UpdateTaskRequest, now: Time)
    requires UniqueBy(tasks, TaskKey) && i < |tasks| && tasks[i].id == taskId
    ensures |tasks[i := ApplyTaskUpdate(tasks[i], req, now)]| == |tasks|
    ensures forall k :: 0 <= k < |tasks| ==>
      tasks[i := ApplyTaskUpdate(tasks[i], req, now)][k]
        == if tasks[k].id == taskId then ApplyTaskUpdate(tasks[k], req, now) else tasks[k]
  {
    ReplaceAtKey(tasks, TaskKey, i, (t: Task) => ApplyTaskUpdate(t, req, now));
  }

  /** The `UPDATE tasks ... WHERE id = $1 RETURNING ...` of an existing task: that row is patched in place. */
  method StoreTaskUpdate(db: Db, taskId: Uuids.Uuid, req: UpdateTaskRequest, now: Time) returns (updated: Task)
    requires db.Valid()
    requires exists t :: t in db.tasks && t.id == taskId
    modifies db
    ensures db.Valid()
    ensures db.users == old(db.users) && db.organizations == old(db.organizations)
    ensures db.members == old(db.members) && db.projects == old(db.projects) && db.comments == old(db.comments)
    ensures |db.tasks| == |old(db.tasks)|
    ensures forall k :: 0 <= k < |db.tasks| ==>
      db.tasks[k] == if old(db.tasks)[k].id == taskId
                     then ApplyTaskUpdate(old(db.tasks)[k], req, now)
                     else old(db.tasks)[k]
    ensures exists t :: t in old(db.tasks) && t.id == taskId && updated == ApplyTaskUpdate(t, req, now)
  {
    var found := FirstIndex((t: Task) => t.id == taskId, db.tasks);
    if found.None? {
      assert false;
    }
    var i := found.value;
    ghost var before := db.tasks;
    updated := ApplyTaskUpdate(db.tasks[i], req, now);
    UniqueByReplace(db.tasks, TaskKey, i, updated);
    UpdateOnlyTask(db.tasks, i, taskId, req, now);
    db.SetTasks(db.tasks[i := updated]);
    assert before[i] in before;
  }

  /** `update_task`: any member of the task's organization may patch it; others get Authorization. */
  method UpdateTask(db: Db, auth: AuthUser, taskId: Uuids.Uuid, req: UpdateTaskRequest, now: Time)
    returns (r: Result<TaskResponse, AppError>)
    requires db.Valid()
    modifies db
    ensures db.Valid()
    ensures db.users == old(db.users) && db.organizations == old(db.organizations)
    ensures db.members == old(db.members) && db.projects == old(db.projects) && db.comments == old(db.comments)
    ensures Caller(auth).Err? ==> r == Err(Authentication("Invalid user ID"))
    ensures Caller(auth).Ok? ==>
      (r.Err? <==> TaskAccess(old(db.tasks), db.projects, db.members, taskId, Caller(auth).value).None?)
    ensures Caller(auth).Ok? && r.Err? ==> r.error == Authorization(NoTaskAccessMessage)
    ensures r.Err? ==> db.tasks == old(db.tasks)
    ensures r.Ok? ==>
      && |db.tasks| == |old(db.tasks)|
      && (forall k :: 0 <= k < |db.tasks| ==>
            db.tasks[k] == if old(db.tasks)[k].id == taskId
                           then ApplyTaskUpdate(old(db.tasks)[k], req, now)
                           else old(db.tasks)[k])
      && exists t :: t in old(db.tasks) && t.id == taskId
           && r.value == ToTaskResponse(ApplyTaskUpdate(t, req, now))
  {
    var caller := Caller(auth);
    if caller.Err? {
      return Err(caller.error);
    }
    if TaskAccess(db.tasks, db.projects, db.members, taskId, caller.value).None? {
      return Err(Authorization(NoTaskAccessMessage));
    }
    var updated := StoreTaskUpdate(db, taskId, req, now);
    r := Ok(ToTaskResponse(updated));
  }

  /** `delete_task`: any member may delete (no role check), 204; NotFound for a missing task or an outsider. */
  method DeleteTask(db: Db, auth: AuthUser, taskId: Uuids.Uuid) returns (r: Result<int, AppError>)
    requires db.Valid()
    modifies db
    ensures db.Valid()
    ensures db.users == old(db.users) && db.organizations == old(db.organizations)
    ensures db.members == old(db.members) && db.projects == old(db.projects) && db.comments == old(db.comments)
    ensures Caller(auth).Err? ==> r == Err(Authentication("Invalid user ID"))
    ensures Caller(auth).Ok? ==>
      (r.Err? <==> TaskAccess(old(db.tasks), db.projects, db.members, taskId, Caller(auth).value).None?)
    ensures Caller(auth).Ok? && r.Err? ==> r.error == NotFound("Task not found")
    ensures r.Ok? ==> r.value == 204 && db.tasks == RemoveBy(old(db.tasks), TaskKey, taskId)
    ensures r.Err? ==> db.tasks == old(db.tasks)
  {
    var caller := Caller(auth);
    if caller.Err? {
      return Err(caller.error);
    }
    if TaskAccess(db.tasks, db.projects, db.members, taskId, caller.value).None? {
      return Err(NotFound("Task not found"));
    }
    db.SetTasks(RemoveBy(db.tasks, TaskKey, taskId));
    r := Ok(204);
  }

  /** `create_comment`: the caller is recorded as the author. */
  method CreateComment(db: Db, auth: AuthUser, taskId: Uuids.Uuid, req: CreateCommentRequest,
                       commentId: Uuids.Uuid, now: Time)
    returns (r: Result<(int, CommentResponse), AppError>)
    requires db.Valid()
    requires forall c :: c in db.comments ==> c.id != commentId
    modifies db
    ensures db.Valid()
    ensures db.users == old(db.users) && db.organizations == old(db.organizations)
    ensures db.members == old(db.members) && db.projects == old(db.projects) && db.tasks == old(db.tasks)
    ensures Caller(auth).Err? ==> r == Err(Authentication("Invalid user ID"))
    ensures Caller(auth).Ok? ==>
      (r.Err? <==> TaskAccess(db.tasks, db.projects, db.members, taskId, Caller(auth).value).None?)
    ensures Caller(auth).Ok? && r.Err? ==> r.error == Authorization(NoTaskAccessMessage)
    ensures r.Err? ==> db.comments == old(db.comments)
    ensures r.Ok? ==>
      var comment := TaskComment(commentId, taskId, Caller(auth).value, req.content, now, now);
      && db.comments == old(db.comments) + [comment]
      && r.value == (201, ToCommentResponse(comment))
      && r.value.1.userId == Caller(auth).value
  {
    var caller := Caller(auth);
    if caller.Err? {
      return Err(caller.error);
    }
    if TaskAccess(db.tasks, db.projects, db.members, taskId, caller.value).None? {
      return Err(Authorization(NoTaskAccessMessage));
    }
    var comment := TaskComment(commentId, taskId, caller.value, req.content, now, now);
    UniqueByAppend(db.comments, CommentKey, comment);
    db.SetComments(db.comments + [comment]);
    r := Ok((201, ToCommentResponse(comment)));
  }

  /** `WHERE task_id = $1`. */
  function CommentsOf(comments: seq<TaskComment>, taskId: Uuids.Uuid): (r: seq<TaskComment>)
    ensures forall c :: c in r <==> c in comments && c.taskId == taskId
  {
    Filter((c: TaskComment) => c.taskId == taskId, comments)
  }

  /** ORDER BY created_at ASC. */
  function OldestFirst(c: CommentResponse): Key {
    Key(c.createdAt, 0)
  }

  lemma SortedOldestFirst(s: seq<CommentResponse>)
    requires SortedBy(s, OldestFirst)
    ensures forall i, j :: 0 <= i < j < |s| ==> s[i].createdAt <= s[j].createdAt
  {
    forall i, j | 0 <= i < j < |s| ensures s[i].createdAt <= s[j].createdAt {
      assert KeyLe(OldestFirst(s[i]), OldestFirst(s[j]));
    }
  }

  /** `get_task_comments`: members only; exactly the task's comments, oldest first. */
  function GetTaskComments(db: Db, auth: AuthUser, taskId: Uuids.Uuid): (r: Result<seq<CommentResponse>, AppError>)
    reads db
    ensures Caller(auth).Err? ==> r == Err(Authentication("Invalid user ID"))
    ensures Caller(auth).Ok? ==>
      (r.Err? <==> TaskAccess(db.tasks, db.projects, db.members, taskId, Caller(auth).value).None?)
    ensures Caller(auth).Ok? && r.Err? ==> r.error == Authorization(NoTaskAccessMessage)
    ensures r.Ok? ==> forall i, j :: 0 <= i < j < |r.value| ==> r.value[i].createdAt <= r.value[j].createdAt
    ensures r.Ok? ==> forall c :: c in db.comments && c.taskId == taskId ==> ToCommentResponse(c) in r.value
    ensures r.Ok? ==> forall x :: x in r.value ==>
      exists c :: c in db.comments && c.taskId == taskId && x == ToCommentResponse(c)
    ensures r.Ok? ==> |r.value| == |CommentsOf(db.comments, taskId)|
  {
    match Caller(auth)
    case Err(e) => Err(e)
    case Ok(userId) =>
      if TaskAccess(db.tasks, db.projects, db.members, taskId, userId).None? then
        Err(Authorization(NoTaskAccessMessage))
      else
        var listed := Map(ToCommentResponse, CommentsOf(db.comments, taskId));
        var sorted := SortBy(listed, OldestFirst);
        SortedOldestFirst(sorted);
        MappedListed(ToCommentResponse, CommentsOf(db.comments, taskId), sorted);
        Ok(sorted)
  }
}
