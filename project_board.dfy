/** The project page's Kanban board: status columns, transition buttons, task creation and status changes. */
module ProjectBoard {
  import opened Wrappers
  import Uuids
  import opened Models
  import opened Seqs

  const TodoStatus := "todo"
  const InProgressStatus := "in_progress"
  const DoneStatus := "done"

  /** One board column: the tasks with that status, in list order. */
  function Column(tasks: seq<TaskResponse>, status: string): (r: seq<TaskResponse>)
    ensures forall t :: t in r <==> t in tasks && t.status == status
    ensures |r| <= |tasks|
  {
    Filter((t: TaskResponse) => t.status == status, tasks)
  }

  /** A column of a concatenation is the concatenation of the columns: list order is kept. */
  lemma ColumnKeepsOrder(a: seq<TaskResponse>, b: seq<TaskResponse>, status: string)
    ensures Column(a + b, status) == Column(a, status) + Column(b, status)
  {
    FilterConcat((t: TaskResponse) => t.status == status, a, b);
  }

  predicate OnBoard(t: TaskResponse) {
    t.status == TodoStatus || t.status == InProgressStatus || t.status == DoneStatus
  }

  /**
   * The three columns together show each task at most once: their counts add up to the number
   * of tasks on the board, and to the whole list exactly when every status is one of the three.
   */
  lemma {:induction false} ColumnCounts(tasks: seq<TaskResponse>)
    ensures |Column(tasks, TodoStatus)| + |Column(tasks, InProgressStatus)| + |Column(tasks, DoneStatus)|
      == |Filter(OnBoard, tasks)|
    ensures |Filter(OnBoard, tasks)| == |tasks| <==> forall t :: t in tasks ==> OnBoard(t)
  {
    if tasks != [] {
      var t := tasks[0];
      var rest := tasks[1..];
      ColumnCounts(rest);
      assert tasks == [t] + rest;
      assert |Column(tasks, TodoStatus)| == |Column([t], TodoStatus)| + |Column(rest, TodoStatus)| by {
        ColumnKeepsOrder([t], rest, TodoStatus);
      }
      assert |Column(tasks, InProgressStatus)| == |Column([t], InProgressStatus)| + |Column(rest, InProgressStatus)| by {
        ColumnKeepsOrder([t], rest, InProgressStatus);
      }
      assert |Column(tasks, DoneStatus)| == |Column([t], DoneStatus)| + |Column(rest, DoneStatus)| by {
        ColumnKeepsOrder([t], rest, DoneStatus);
      }
      assert |Filter(OnBoard, tasks)| == |Filter(OnBoard, [t])| + |Filter(OnBoard, rest)| by {
        FilterConcat(OnBoard, [t], rest);
      }
      SingleColumns(t);
      assert forall u :: u in tasks <==> u == t || u in rest;
      if !OnBoard(t) {
        assert |Filter(OnBoard, tasks)| == |Filter(OnBoard, rest)| <= |rest| < |tasks|;
      }
    }
  }

  /** A one-task list puts the task in its own column only, and on the board exactly when its status is one of the three. */
  lemma SingleColumns(t: TaskResponse)
    ensures |Column([t], TodoStatus)| == if t.status == TodoStatus then 1 else 0
    ensures |Column([t], InProgressStatus)| == if t.status == InProgressStatus then 1 else 0
    ensures |Column([t], DoneStatus)| == if t.status == DoneStatus then 1 else 0
    ensures |Filter(OnBoard, [t])| == if OnBoard(t) then 1 else 0
  {
    assert [t][1..] == [];
  }

  /** The status buttons each column offers. */
  function Transitions(status: string): (r: seq<string>)
    ensures status !in r
    ensures forall s :: s in r ==> s == TodoStatus || s == InProgressStatus || s == DoneStatus
    ensures status == TodoStatus || status == InProgressStatus ==> DoneStatus in r
  {
    if status == TodoStatus then [InProgressStatus, DoneStatus]
    else if status == InProgressStatus then [TodoStatus, DoneStatus]
    else if status == DoneStatus then [InProgressStatus]
    else []
  }

  /**
   * Every column can reach every other in at most two clicks, the second one from
   * "in_progress", but "done" never leads straight back to "todo".
   */
  lemma TransitionGraph(from: string, to: string)
    requires from in [TodoStatus, InProgressStatus, DoneStatus] && to in [TodoStatus, InProgressStatus, DoneStatus]
    requires from != to
    ensures to in Transitions(from) || (InProgressStatus in Transitions(from) && to in Transitions(InProgressStatus))
    ensures Transitions(DoneStatus) == [InProgressStatus]
  {
  }

  /** The card border for a priority. */
  function PriorityColour(priority: string): (r: string)
    ensures priority == "high" ==> r == "border-l-4 border-red-500"
    ensures priority == "medium" ==> r == "border-l-4 border-yellow-500"
    ensures priority == "low" ==> r == "border-l-4 border-green-500"
    ensures priority !in {"high", "medium", "low"} ==> r == "border-l-4 border-gray-300"
  {
    match priority
    case "high" => "border-l-4 border-red-500"
    case "medium" => "border-l-4 border-yellow-500"
    case "low" => "border-l-4 border-green-500"
    case _ => "border-l-4 border-gray-300"
  }

  /** `t.id.to_string() == task_id`. */
  predicate HasId(t: TaskResponse, taskId: string) {
    Uuids.ToString(t.id) == taskId
  }

  /** The search predicate of `iter_mut().find(...)`. */
  function IdMatch(taskId: string): TaskResponse -> bool {
    (t: TaskResponse) => HasId(t, taskId)
  }

  /** The board's signals. */
  class Board {
    var tasks: seq<TaskResponse>
    var loading: bool
    var error: Option<string>
    var showCreateModal: bool
    var title: string
    var description: string
    var priority: string
    var createError: Option<string>

    constructor ()
      ensures tasks == [] && loading && error.None? && !showCreateModal
      ensures title == "" && description == "" && priority == "medium" && createError.None?
    {
      tasks, loading, error, showCreateModal := [], true, None, false;
      title, description, priority, createError := "", "", "medium", None;
    }

    /** The load effect: only for a non-empty project id; the list or the error, then loading ends. */
    method LoadTasks(projectId: string, fetched: Result<seq<TaskResponse>, string>)
      modifies this`tasks, this`loading, this`error
      ensures projectId == "" ==> tasks == old(tasks) && loading == old(loading) && error == old(error)
      ensures projectId != "" ==> !loading
      ensures projectId != "" && fetched.Ok? ==> tasks == fetched.value && error.None?
      ensures projectId != "" && fetched.Err? ==>
        tasks == old(tasks) && error == Some("Failed to load tasks: " + fetched.error)
    {
      if projectId == "" {
        return;
      }
      loading := true;
      match fetched {
        case Ok(list) =>
          tasks := list;
          error := None;
        case Err(e) =>
          error := Some("Failed to load tasks: " + e);
      }
      loading := false;
    }

    /**
     * `handle_create`: an empty title is refused before any request; otherwise the request is a
     * "todo" task with the chosen priority and no assignee or due date, and the response is
     * applied: appended and the form reset, or the error shown.
     */
    method HandleCreate(response: Result<TaskResponse, string>) returns (sent: Option<CreateTaskRequest>)
      modifies this`tasks, this`showCreateModal, this`title, this`description, this`priority, this`createError
      ensures old(title) == "" ==>
        && sent.None? && createError == Some("Task title is required")
        && tasks == old(tasks) && showCreateModal == old(showCreateModal)
        && title == old(title) && description == old(description) && priority == old(priority)
      ensures old(title) != "" ==>
        && sent == Some(CreateTaskRequest(old(title), if old(description) == "" then None else Some(old(description)),
                                          Some("todo"), Some(old(priority)), None, None))
      ensures old(title) != "" && response.Ok? ==>
        && tasks == old(tasks) + [response.value] && !showCreateModal
        && title == "" && description == "" && priority == "medium" && createError.None?
      ensures old(title) != "" && response.Err? ==>
        && tasks == old(tasks) && showCreateModal == old(showCreateModal)
        && title == old(title) && description == old(description) && priority == old(priority)
        && createError == Some("Failed to create task: " + response.error)
    {
      if title == "" {
        createError := Some("Task title is required");
        return None;
      }
      var request := CreateTaskRequest(title, if description == "" then None else Some(description),
                                       Some(TodoStatus), Some(priority), None, None);
      sent := Some(request);
      match response {
        case Ok(created) =>
          tasks := tasks + [created];
          showCreateModal := false;
          title := "";
          description := "";
          priority := "medium";
          createError := None;
        case Err(e) =>
          createError := Some("Failed to create task: " + e);
      }
    }

    /**
     * `handle_status_change`: a patch carrying only the status; on success the first task with
     * that id is replaced in place, on failure the list is left as it was.
     */
    method HandleStatusChange(taskId: string, newStatus: string, response: Result<TaskResponse, string>)
      returns (sent: UpdateTaskRequest)
      modifies this`tasks
      ensures sent == UpdateTaskRequest(None, None, Some(newStatus), None, None, None, None)
      ensures response.Ok? ==> tasks == ReplaceFirst(old(tasks), IdMatch(taskId), response.value)
      ensures response.Err? ==> tasks == old(tasks)
      ensures error == old(error) && createError == old(createError)
    {
      sent := UpdateTaskRequest(None, None, Some(newStatus), None, None, None, None);
      if response.Ok? {
        var found := FindIndex(tasks, IdMatch(taskId));
        if found.Some? {
          ReplaceFirstAt(tasks, IdMatch(taskId), response.value, found.value);
          tasks := tasks[found.value := response.value];
        } else {
          ReplaceFirstNoMatch(tasks, IdMatch(taskId), response.value);
        }
      }
    }
  }

  /** After a successful status change, exactly the first matching entry differs; order and length are kept. */
  lemma StatusChangeTouchesOne(tasks: seq<TaskResponse>, taskId: string, updated: TaskResponse, k: nat)
    requires k < |tasks|
    ensures var r := ReplaceFirst(tasks, IdMatch(taskId), updated);
      r[k] != tasks[k] ==>
        r[k] == updated && HasId(tasks[k], taskId) && forall j :: 0 <= j < k ==> !HasId(tasks[j], taskId)
  {
    var p := IdMatch(taskId);
    match FirstIndex(p, tasks)
    case Some(i) => ReplaceFirstAt(tasks, p, updated, i);
    case None => ReplaceFirstNoMatch(tasks, p, updated);
  }
}
