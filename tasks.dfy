/**
 * Task visibility, the assignee check, and the task queries and writes (TaskService).
 * Modelled as the code has it: a task without a project is visible to every user, the
 * assignee check asks only whether the two users share some team, and creating a task in
 * a project does not check that the caller belongs to it.
 */
module Tasks {
  import opened Wrappers
  import opened Entities
  import opened Users

  const TASK_NOT_FOUND: string := "Task not found"
  const ASSIGNEE_NOT_FOUND: string := "Assignee not found"
  const ASSIGNEE_NOT_IN_TEAM: string := "Assignee not found in user's team"
  const PROJECT_NOT_FOUND: string := "Project not found"

  /** The create-task body; `projectId` is an alias of `teamId`. Title and status are validated as present. */
  datatype CreateTaskRequest = CreateTaskRequest(title: string, description: Option<string>, status: TaskStatus,
                                                 assigneeId: Option<Id>, teamId: Option<Id>,
                                                 sprintId: Option<int>, deadline: Option<int>)
  {
    function ProjectId(): Option<Id> { teamId }
  }

  /** The update-task body: every field may be null, meaning "leave unchanged". */
  datatype UpdateTaskRequest = UpdateTaskRequest(title: Option<string>, description: Option<string>,
                                                 status: Option<TaskStatus>, assigneeId: Option<Id>, teamId: Option<Id>,
                                                 sprintId: Option<int>, deadline: Option<int>)

  /** `belongsToUserTeam`: no project means visible to all; otherwise the user must be a project member. */
  predicate BelongsToUserTeam(teams: map<Id, Team>, task: Task, userId: Id): (r: bool)
    ensures r <==> task.project.None? || task.project.value in TeamsOf(teams, userId)
  {
    task.project.None? || (task.project.value in teams && IsMember(teams[task.project.value], userId))
  }

  /** `isUserInSameTeam`: some team of the first user is also a team of the second. */
  predicate IsUserInSameTeam(teams: map<Id, Team>, a: Id, b: Id): (r: bool)
    ensures r <==> exists t :: t in teams && IsMember(teams[t], a) && IsMember(teams[t], b)
  {
    exists t :: t in TeamsOf(teams, a) && t in TeamsOf(teams, b)
  }

  /** The visibility rule stated per case. */
  lemma VisibilityCases(teams: map<Id, Team>, task: Task, userId: Id)
    ensures task.project.None? ==> BelongsToUserTeam(teams, task, userId)
    ensures task.project.Some? ==>
      (BelongsToUserTeam(teams, task, userId) <==> task.project.value in TeamsOf(teams, userId))
  {
  }

  /** Sharing a team is symmetric, and means some stored team lists both users. */
  lemma SameTeamMeansSharedTeam(teams: map<Id, Team>, a: Id, b: Id)
    ensures IsUserInSameTeam(teams, a, b) == IsUserInSameTeam(teams, b, a)
    ensures IsUserInSameTeam(teams, a, b) <==> exists t :: t in teams && IsMember(teams[t], a) && IsMember(teams[t], b)
  {
    if exists t :: t in teams && IsMember(teams[t], a) && IsMember(teams[t], b) {
      var t :| t in teams && IsMember(teams[t], a) && IsMember(teams[t], b);
      assert t in TeamsOf(teams, a) && t in TeamsOf(teams, b);
    }
  }

  /** A user in no team shares a team with nobody, not even with themself. */
  lemma NoTeamNoAssignee(teams: map<Id, Team>, a: Id, b: Id)
    requires TeamsOf(teams, a) == {}
    ensures !IsUserInSameTeam(teams, a, b) && !IsUserInSameTeam(teams, b, a)
  {
  }

  /** The stream filter of the list queries: the visible tasks, in store order. */
  function VisibleTasks(tasks: seq<Task>, teams: map<Id, Team>, userId: Id): (r: seq<Task>)
    ensures |r| <= |tasks|
    ensures forall t :: t in r <==> t in tasks && BelongsToUserTeam(teams, t, userId)
  {
    if tasks == [] then []
    else (if BelongsToUserTeam(teams, tasks[0], userId) then [tasks[0]] else [])
         + VisibleTasks(tasks[1..], teams, userId)
  }

  /** `findByStatus`: the tasks with the given status, in store order. */
  function WithStatus(tasks: seq<Task>, status: TaskStatus): (r: seq<Task>)
    ensures |r| <= |tasks|
    ensures forall t :: t in r <==> t in tasks && t.status == status
  {
    if tasks == [] then []
    else (if tasks[0].status == status then [tasks[0]] else []) + WithStatus(tasks[1..], status)
  }

  /** Filtering keeps store order: it distributes over concatenation. */
  lemma {:induction false} VisibleTasksAppend(a: seq<Task>, b: seq<Task>, teams: map<Id, Team>, userId: Id)
    ensures VisibleTasks(a + b, teams, userId) == VisibleTasks(a, teams, userId) + VisibleTasks(b, teams, userId)
  {
    if a != [] {
      assert (a + b)[1..] == a[1..] + b;
      VisibleTasksAppend(a[1..], b, teams, userId);
    } else {
      assert a + b == b;
    }
  }

  /** Filtering by status then by visibility equals filtering by visibility then by status. */
  lemma {:induction false} StatusAndVisibilityCommute(tasks: seq<Task>, teams: map<Id, Team>, userId: Id, status: TaskStatus)
    ensures VisibleTasks(WithStatus(tasks, status), teams, userId) == WithStatus(VisibleTasks(tasks, teams, userId), status)
  {
    if tasks != [] {
      var head := if tasks[0].status == status then [tasks[0]] else [];
      StatusAndVisibilityCommute(tasks[1..], teams, userId, status);
      VisibleTasksAppend(head, WithStatus(tasks[1..], status), teams, userId);
      var vhead := if BelongsToUserTeam(teams, tasks[0], userId) then [tasks[0]] else [];
      WithStatusAppend(vhead, VisibleTasks(tasks[1..], teams, userId), status);
    }
  }

  lemma {:induction false} WithStatusAppend(a: seq<Task>, b: seq<Task>, status: TaskStatus)
    ensures WithStatus(a + b, status) == WithStatus(a, status) + WithStatus(b, status)
  {
    if a != [] {
      assert (a + b)[1..] == a[1..] + b;
      WithStatusAppend(a[1..], b, status);
    } else {
      assert a + b == b;
    }
  }

  /** `getAllTasks`: exactly the visible tasks, in store order. */
  function GetAllTasks(tasks: seq<Task>, teams: map<Id, Team>, principal: Option<User>): (r: Result<seq<Task>>)
    ensures r.Failure? <==> principal.None?
    ensures r.Failure? ==> r.message == NOT_AUTHENTICATED
    ensures r.Success? ==> r.value == VisibleTasks(tasks, teams, principal.value.id)
  {
    if principal.None? then Failure(NOT_AUTHENTICATED)
    else Success(VisibleTasks(tasks, teams, principal.value.id))
  }

  /** `getTasksByStatus`: exactly the visible tasks of that status, in store order. */
  function GetTasksByStatus(tasks: seq<Task>, teams: map<Id, Team>, principal: Option<User>, status: TaskStatus)
    : (r: Result<seq<Task>>)
    ensures r.Failure? <==> principal.None?
    ensures r.Success? ==> forall t :: (t in r.value <==>
                                          t in tasks && t.status == status && BelongsToUserTeam(teams, t, principal.value.id))
    ensures r.Success? ==> r.value == WithStatus(GetAllTasks(tasks, teams, principal).value, status)
  {
    if principal.None? then Failure(NOT_AUTHENTICATED)
    else
      StatusAndVisibilityCommute(tasks, teams, principal.value.id, status);
      Success(VisibleTasks(WithStatus(tasks, status), teams, principal.value.id))
  }

  /** `findByAssignee`: the tasks assigned to the user, in store order. */
  function AssignedTo(tasks: seq<Task>, userId: Id): (r: seq<Task>)
    ensures |r| <= |tasks|
    ensures forall t :: t in r <==> t in tasks && t.assignee == Some(userId)
  {
    if tasks == [] then []
    else (if tasks[0].assignee == Some(userId) then [tasks[0]] else []) + AssignedTo(tasks[1..], userId)
  }

  /** `getTasksAssignedToMe`: the caller's assigned tasks, with no visibility filter. */
  function GetTasksAssignedToMe(tasks: seq<Task>, principal: Option<User>): (r: Result<seq<Task>>)
    ensures r.Failure? <==> principal.None?
    ensures r.Success? ==> forall t :: t in r.value <==> t in tasks && t.assignee == Some(principal.value.id)
    ensures principal.Some? ==> r == Success(AssignedTo(tasks, principal.value.id))
  {
    if principal.None? then Failure(NOT_AUTHENTICATED)
    else Success(AssignedTo(tasks, principal.value.id))
  }

  /** Unlike the other listings, a task assigned to the caller is listed even in a project they are not in. */
  lemma AssignedListingIgnoresVisibility(tasks: seq<Task>, teams: map<Id, Team>, user: User, t: Task)
    requires t in tasks && t.assignee == Some(user.id) && !BelongsToUserTeam(teams, t, user.id)
    ensures t in GetTasksAssignedToMe(tasks, Some(user)).value
    ensures t !in GetAllTasks(tasks, teams, Some(user)).value
  {
  }

  /** `findById` on the task store: the position of the task with that id. */
  function FindTask(tasks: seq<Task>, id: Id): (r: Option<nat>)
    ensures r.Some? ==> r.value < |tasks| && tasks[r.value].id == id
    ensures r.Some? ==> forall j :: 0 <= j < r.value ==> tasks[j].id != id
    ensures r.None? <==> forall j :: 0 <= j < |tasks| ==> tasks[j].id != id
  {
    FirstIndex(tasks, (t: Task) => t.id == id)
  }

  /** The guard of get, update and delete: "Task not found" before "Access denied". */
  function Authorize(tasks: seq<Task>, teams: map<Id, Team>, principal: Option<User>, id: Id): (r: Result<nat>)
    ensures principal.None? ==> r == Failure(NOT_AUTHENTICATED)
    ensures principal.Some? && (forall j :: 0 <= j < |tasks| ==> tasks[j].id != id) ==> r == Failure(TASK_NOT_FOUND)
    ensures r.Success? ==> principal.Some? && r.value < |tasks| && tasks[r.value].id == id
                           && BelongsToUserTeam(teams, tasks[r.value], principal.value.id)
    ensures r.Failure? ==> r.message in {NOT_AUTHENTICATED, TASK_NOT_FOUND, ACCESS_DENIED}
    ensures r == Failure(ACCESS_DENIED) <==> principal.Some? && FindTask(tasks, id).Some?
                                             && !BelongsToUserTeam(teams, tasks[FindTask(tasks, id).value], principal.value.id)
    ensures r == Failure(TASK_NOT_FOUND) <==> principal.Some? && FindTask(tasks, id).None?
    ensures r.Success? <==> principal.Some? && FindTask(tasks, id).Some?
                            && BelongsToUserTeam(teams, tasks[FindTask(tasks, id).value], principal.value.id)
    ensures r.Success? ==> r.value == FindTask(tasks, id).value
  {
    if principal.None? then Failure(NOT_AUTHENTICATED)
    else match FindTask(tasks, id)
      case None => Failure(TASK_NOT_FOUND)
      case Some(i) =>
        if BelongsToUserTeam(teams, tasks[i], principal.value.id) then Success(i) else Failure(ACCESS_DENIED)
  }

  /** `getTaskById` */
  function GetTaskById(tasks: seq<Task>, teams: map<Id, Team>, principal: Option<User>, id: Id): (r: Result<Task>)
    ensures r.Success? ==> principal.Some? && r.value in tasks && r.value.id == id
                           && BelongsToUserTeam(teams, r.value, principal.value.id)
    ensures r.Failure? ==> Failure(r.message) == Authorize(tasks, teams, principal, id)
  {
    match Authorize(tasks, teams, principal, id)
    case Success(i) => Success(tasks[i])
    case Failure(m) => Failure(m)
  }

  /** The assignee check shared by create and update: it must exist and share a team with the caller. */
  function CheckAssignee(users: seq<User>, teams: map<Id, Team>, userId: Id, assigneeId: Id): (r: Result<Id>)
    ensures r.Success? <==> assigneeId < |users| && IsUserInSameTeam(teams, userId, assigneeId)
    ensures r.Success? ==> r.value == assigneeId
    ensures FindById(users, assigneeId).None? ==> r == Failure(ASSIGNEE_NOT_FOUND)
    ensures FindById(users, assigneeId).Some? && r.Failure? ==> r == Failure(ASSIGNEE_NOT_IN_TEAM)
  {
    if FindById(users, assigneeId).None? then Failure(ASSIGNEE_NOT_FOUND)
    else if !IsUserInSameTeam(teams, userId, assigneeId) then Failure(ASSIGNEE_NOT_IN_TEAM)
    else Success(assigneeId)
  }

  /** What `createTask` saves under `newId`, or the exception it throws. */
  function PlanCreate(users: seq<User>, teams: map<Id, Team>, principal: Option<User>,
                      req: CreateTaskRequest, newId: Id): (r: Result<Task>)
    ensures r.Success? ==> principal.Some?
    ensures r.Success? ==> r.value == Task(newId, req.title, req.description, req.status,
                                           req.assigneeId, req.ProjectId(), req.sprintId, req.deadline)
    ensures r.Success? && req.assigneeId.Some? ==> IsUserInSameTeam(teams, principal.value.id, req.assigneeId.value)
    ensures r.Success? && req.ProjectId().Some? ==> req.ProjectId().value in teams
    ensures r.Failure? ==> r.message in {NOT_AUTHENTICATED, ASSIGNEE_NOT_FOUND, ASSIGNEE_NOT_IN_TEAM, PROJECT_NOT_FOUND}
    ensures r.Failure? ==> (r.message == NOT_AUTHENTICATED <==> principal.None?)
    ensures principal.Some? && req.assigneeId.Some?
            && CheckAssignee(users, teams, principal.value.id, req.assigneeId.value).Failure?
            ==> r == Failure(CheckAssignee(users, teams, principal.value.id, req.assigneeId.value).message)
    ensures principal.Some? && (req.assigneeId.None? || CheckAssignee(users, teams, principal.value.id, req.assigneeId.value).Success?)
            ==> (r.Success? <==> req.ProjectId().None? || req.ProjectId().value in teams)
  {
    if principal.None? then Failure(NOT_AUTHENTICATED)
    else if req.assigneeId.Some? && CheckAssignee(users, teams, principal.value.id, req.assigneeId.value).Failure? then
      Failure(CheckAssignee(users, teams, principal.value.id, req.assigneeId.value).message)
    else if req.ProjectId().Some? && req.ProjectId().value !in teams then Failure(PROJECT_NOT_FOUND)
    else Success(Task(newId, req.title, req.description, req.status, req.assigneeId, req.ProjectId(),
                      req.sprintId, req.deadline))
  }

  /** The assignee errors come first: whatever project was asked for, they are what is thrown. */
  lemma AssigneeCheckedBeforeProject(users: seq<User>, teams: map<Id, Team>, user: User,
                                     req: CreateTaskRequest, newId: Id, otherProject: Option<Id>)
    requires req.assigneeId.Some? && CheckAssignee(users, teams, user.id, req.assigneeId.value).Failure?
    ensures var r := PlanCreate(users, teams, Some(user), req, newId);
            && r == PlanCreate(users, teams, Some(user), req.(teamId := otherProject), newId)
            && r.Failure? && r.message in {ASSIGNEE_NOT_FOUND, ASSIGNEE_NOT_IN_TEAM}
  {
  }

  /** An unknown project is reported as "Project not found" once the assignee passed. */
  lemma UnknownProjectRejected(users: seq<User>, teams: map<Id, Team>, user: User, req: CreateTaskRequest, newId: Id)
    requires req.ProjectId().Some? && req.ProjectId().value !in teams
    requires req.assigneeId.None? || CheckAssignee(users, teams, user.id, req.assigneeId.value).Success?
    ensures PlanCreate(users, teams, Some(user), req, newId) == Failure(PROJECT_NOT_FOUND)
  {
  }

  /**
   * As written, a caller may create a task in a project they do not belong to, and the task
   * is then invisible to them.
   */
  lemma CreateInForeignProject(users: seq<User>, teams: map<Id, Team>, user: User, req: CreateTaskRequest, newId: Id)
    requires req.assigneeId.None? && req.ProjectId().Some?
    requires req.ProjectId().value in teams && !IsMember(teams[req.ProjectId().value], user.id)
    ensures var r := PlanCreate(users, teams, Some(user), req, newId);
            r.Success? && !BelongsToUserTeam(teams, r.value, user.id)
  {
  }

  /** `updateTask`'s field copying: each non-null request field replaces the task's. */
  function ApplyUpdate(task: Task, req: UpdateTaskRequest): (u: Task)
    ensures u.id == task.id && u.project == task.project
    ensures u.title == req.title.GetOr(task.title)
    ensures u.description == (if req.description.Some? then req.description else task.description)
    ensures u.status == req.status.GetOr(task.status)
    ensures u.assignee == (if req.assigneeId.Some? then req.assigneeId else task.assignee)
    ensures u.sprintId == (if req.sprintId.Some? then req.sprintId else task.sprintId)
    ensures u.deadline == (if req.deadline.Some? then req.deadline else task.deadline)
  {
    Task(task.id,
         if req.title.Some? then req.title.value else task.title,
         if req.description.Some? then req.description else task.description,
         if req.status.Some? then req.status.value else task.status,
         if req.assigneeId.Some? then req.assigneeId else task.assignee,
         task.project,
         if req.sprintId.Some? then req.sprintId else task.sprintId,
         if req.deadline.Some? then req.deadline else task.deadline)
  }

  /** An all-null update changes nothing, and applying an update twice is applying it once. */
  lemma ApplyUpdateLaws(task: Task, req: UpdateTaskRequest)
    ensures ApplyUpdate(task, UpdateTaskRequest(None, None, None, None, None, None, None)) == task
    ensures ApplyUpdate(ApplyUpdate(task, req), req) == ApplyUpdate(task, req)
  {
  }

  /** What `updateTask` saves in place of the task, or the exception it throws. */
  function PlanUpdate(tasks: seq<Task>, users: seq<User>, teams: map<Id, Team>, principal: Option<User>,
                      id: Id, req: UpdateTaskRequest): (r: Result<Task>)
    ensures r.Success? ==> Authorize(tasks, teams, principal, id).Success?
    ensures r.Success? ==> r.value == ApplyUpdate(tasks[Authorize(tasks, teams, principal, id).value], req)
    ensures Authorize(tasks, teams, principal, id).Failure? ==>
              Failure(r.message) == Authorize(tasks, teams, principal, id)
    ensures r.Failure? ==> r.message in {NOT_AUTHENTICATED, TASK_NOT_FOUND, ACCESS_DENIED,
                                         ASSIGNEE_NOT_FOUND, ASSIGNEE_NOT_IN_TEAM}
    ensures r.Failure? ==> (r.message == NOT_AUTHENTICATED <==> principal.None?)
    ensures r.Failure? ==> (r.message == ACCESS_DENIED <==> Authorize(tasks, teams, principal, id) == Failure(ACCESS_DENIED))
    ensures Authorize(tasks, teams, principal, id).Success? && req.assigneeId.Some?
            && CheckAssignee(users, teams, principal.value.id, req.assigneeId.value).Failure?
            ==> r == Failure(CheckAssignee(users, teams, principal.value.id, req.assigneeId.value).message)
    ensures Authorize(tasks, teams, principal, id).Success?
            && (req.assigneeId.None? || CheckAssignee(users, teams, principal.value.id, req.assigneeId.value).Success?)
            ==> r.Success?
  {
    match Authorize(tasks, teams, principal, id)
    case Failure(m) => Failure(m)
    case Success(i) =>
      if req.assigneeId.Some? && CheckAssignee(users, teams, principal.value.id, req.assigneeId.value).Failure? then
        Failure(CheckAssignee(users, teams, principal.value.id, req.assigneeId.value).message)
      else Success(ApplyUpdate(tasks[i], req))
  }

  /** A successful update keeps the task's id and project, so the updater can still see it. */
  lemma UpdateKeepsVisibility(tasks: seq<Task>, users: seq<User>, teams: map<Id, Team>, principal: Option<User>,
                              id: Id, req: UpdateTaskRequest)
    requires PlanUpdate(tasks, users, teams, principal, id, req).Success?
    ensures var t := PlanUpdate(tasks, users, teams, principal, id, req).value;
            principal.Some? && t.id == id && BelongsToUserTeam(teams, t, principal.value.id)
            && t.project == tasks[FindTask(tasks, id).value].project
  {
  }

  /** The store without the element at `i`. */
  function RemoveAt(tasks: seq<Task>, i: nat): (r: seq<Task>)
    requires i < |tasks|
    ensures |r| == |tasks| - 1
    ensures multiset(r) + multiset{tasks[i]} == multiset(tasks)
  {
    assert tasks == tasks[..i] + [tasks[i]] + tasks[i + 1..];
    tasks[..i] + tasks[i + 1..]
  }

  /** What `deleteTask` reports: success exactly when the guard passes, otherwise the guard's exception. */
  function DeleteOutcome(tasks: seq<Task>, teams: map<Id, Team>, principal: Option<User>, id: Id): (r: Result<()>)
    ensures r.Success? <==> Authorize(tasks, teams, principal, id).Success?
    ensures r.Failure? ==> Failure(r.message) == Authorize(tasks, teams, principal, id)
  {
    match Authorize(tasks, teams, principal, id)
    case Success(_) => Success(())
    case Failure(m) => Failure(m)
  }

  ghost predicate UniqueIds(tasks: seq<Task>) {
    forall i, j :: 0 <= i < j < |tasks| ==> tasks[i].id != tasks[j].id
  }

  /** Deleting removes exactly the task with that id: it is gone and every other task remains. */
  lemma {:induction false} DeleteRemovesOnlyThatTask(tasks: seq<Task>, i: nat)
    requires i < |tasks| && UniqueIds(tasks)
    ensures FindTask(RemoveAt(tasks, i), tasks[i].id).None?
    ensures forall t :: t in tasks && t.id != tasks[i].id ==> t in RemoveAt(tasks, i)
    ensures UniqueIds(RemoveAt(tasks, i))
  {
    var r := RemoveAt(tasks, i);
    assert forall j :: 0 <= j < |r| ==> r[j] == (if j < i then tasks[j] else tasks[j + 1]);
    forall t | t in tasks && t.id != tasks[i].id ensures t in r {
      var k :| 0 <= k < |tasks| && tasks[k] == t;
      assert k != i;
      assert r[if k < i then k else k - 1] == t;
    }
  }

  ghost predicate IdsBelow(tasks: seq<Task>, bound: Id) {
    forall k :: 0 <= k < |tasks| ==> tasks[k].id < bound
  }

  /** Replacing a task by one with the same id keeps the ids unique and below `bound`. */
  lemma ReplaceKeepsIds(tasks: seq<Task>, i: nat, t: Task, bound: Id)
    requires i < |tasks| && t.id == tasks[i].id
    requires UniqueIds(tasks) && IdsBelow(tasks, bound)
    ensures UniqueIds(tasks[i := t]) && IdsBelow(tasks[i := t], bound)
  {
  }

  class TaskService {
    /** The task store in repository order. */
    var tasks: seq<Task>
    var nextTaskId: Id

    ghost predicate Valid()
      reads this
    {
      UniqueIds(tasks) && IdsBelow(tasks, nextTaskId)
    }

    constructor ()
      ensures Valid() && tasks == [] && nextTaskId == 0
    {
      tasks := [];
      nextTaskId := 0;
    }

    /** `createTask`: the task is appended under a fresh id only when every check passes. */
    method CreateTask(principal: Option<User>, users: seq<User>, teams: map<Id, Team>, req: CreateTaskRequest)
      returns (r: Result<Task>)
      requires Valid() && IdsArePositions(users)
      modifies this
      ensures Valid()
      ensures r == PlanCreate(users, teams, principal, req, old(nextTaskId))
      ensures r.Success? ==> tasks == old(tasks) + [r.value] && nextTaskId == old(nextTaskId) + 1
      ensures r.Failure? ==> tasks == old(tasks) && nextTaskId == old(nextTaskId)
    {
      if principal.None? {
        return Failure(NOT_AUTHENTICATED);
      }
      var currentUser := principal.value;
      var task := Task(nextTaskId, req.title, req.description, req.status, None, None, None, None);

      if req.assigneeId.Some? {
        var assignee := FindById(users, req.assigneeId.value);
        if assignee.None? {
          return Failure(ASSIGNEE_NOT_FOUND);
        }
        if !IsUserInSameTeam(teams, currentUser.id, assignee.value.id) {
          return Failure(ASSIGNEE_NOT_IN_TEAM);
        }
        task := task.(assignee := Some(assignee.value.id));
      }

      if req.ProjectId().Some? {
        if req.ProjectId().value !in teams {
          return Failure(PROJECT_NOT_FOUND);
        }
        task := task.(project := req.ProjectId());
      }

      task := task.(sprintId := req.sprintId, deadline := req.deadline);
      tasks := tasks + [task];
      nextTaskId := nextTaskId + 1;
      r := Success(task);
    }

    /** `updateTask`: the task is replaced in place only when every check passes. */
    method UpdateTask(principal: Option<User>, users: seq<User>, teams: map<Id, Team>, id: Id, req: UpdateTaskRequest)
      returns (r: Result<Task>)
      requires Valid() && IdsArePositions(users)
      modifies this
      ensures Valid() && nextTaskId == old(nextTaskId)
      ensures r == PlanUpdate(old(tasks), users, teams, principal, id, req)
      ensures r.Success? ==> tasks == old(tasks)[FindTask(old(tasks), id).value := r.value]
      ensures r.Failure? ==> tasks == old(tasks)
    {
      if principal.None? {
        return Failure(NOT_AUTHENTICATED);
      }
      var currentUser := principal.value;
      var found := FindTask(tasks, id);
      if found.None? {
        return Failure(TASK_NOT_FOUND);
      }
      var i := found.value;
      var task := tasks[i];
      if !BelongsToUserTeam(teams, task, currentUser.id) {
        return Failure(ACCESS_DENIED);
      }
      assert Authorize(tasks, teams, principal, id) == Success(i);
      r := ApplyRequest(task, req, users, teams, currentUser.id);
      if r.Failure? {
        // the transaction rolls back: the store keeps the old task
        return;
      }
      ReplaceKeepsIds(tasks, i, r.value, nextTaskId);
      tasks := tasks[i := r.value];
    }

    /**
     * The body of `updateTask` once access is granted: each non-null field is copied in turn,
     * and a named assignee must exist and share a team with the caller.
     */
    method ApplyRequest(task: Task, req: UpdateTaskRequest, users: seq<User>, teams: map<Id, Team>, userId: Id)
      returns (r: Result<Task>)
      requires IdsArePositions(users)
      ensures req.assigneeId.Some? && CheckAssignee(users, teams, userId, req.assigneeId.value).Failure? ==>
                r == Failure(CheckAssignee(users, teams, userId, req.assigneeId.value).message)
      ensures req.assigneeId.None? || CheckAssignee(users, teams, userId, req.assigneeId.value).Success? ==>
                r == Success(ApplyUpdate(task, req))
    {
      var updated := task;
      if req.title.Some? {
        updated := updated.(title := req.title.value);
      }
      if req.description.Some? {
        updated := updated.(description := req.description);
      }
      if req.status.Some? {
        updated := updated.(status := req.status.value);
      }
      if req.assigneeId.Some? {
        var assignee := FindById(users, req.assigneeId.value);
        if assignee.None? {
          return Failure(ASSIGNEE_NOT_FOUND);
        }
        if !IsUserInSameTeam(teams, userId, assignee.value.id) {
          return Failure(ASSIGNEE_NOT_IN_TEAM);
        }
        updated := updated.(assignee := Some(assignee.value.id));
      }
      if req.sprintId.Some? {
        updated := updated.(sprintId := req.sprintId);
      }
      if req.deadline.Some? {
        updated := updated.(deadline := req.deadline);
      }
      r := Success(updated);
    }

    /** `deleteTask`: the one task goes, and only after both checks pass. */
    method DeleteTask(principal: Option<User>, teams: map<Id, Team>, id: Id) returns (r: Result<()>)
      requires Valid()
      modifies this
      ensures Valid() && nextTaskId == old(nextTaskId)
      ensures r == DeleteOutcome(old(tasks), teams, principal, id)
      ensures r.Failure? ==> tasks == old(tasks)
      ensures r.Success? ==> tasks == RemoveAt(old(tasks), FindTask(old(tasks), id).value)
    {
      if principal.None? {
        return Failure(NOT_AUTHENTICATED);
      }
      var found := FindTask(tasks, id);
      if found.None? {
        return Failure(TASK_NOT_FOUND);
      }
      if !BelongsToUserTeam(teams, tasks[found.value], principal.value.id) {
        return Failure(ACCESS_DENIED);
      }
      DeleteRemovesOnlyThatTask(tasks, found.value);
      tasks := RemoveAt(tasks, found.value);
      r := Success(());
    }
  }
}
