/**
 * TaskController: how the task service's outcome becomes an HTTP response. Exceptions are
 * told apart only by substring tests on their message ("not found", "Access denied").
 */
module TaskController {
  import opened Wrappers
  import opened Text
  import opened Entities
  import opened Http
  import opened Tasks
  import ExceptionHandler

  const TASK_NOT_FOUND_BODY: ErrorResponse := ErrorResponse("Task not found", "TASK_NOT_FOUND", None)

  /** The four "not found" messages of the task service pass the "not found" test. */
  lemma TaskNotFoundMessage()
    ensures Contains(TASK_NOT_FOUND, NOT_FOUND_FRAGMENT)
  {
    assert TASK_NOT_FOUND == "Task " + NOT_FOUND_FRAGMENT + "";
    ContainsInfix("Task ", NOT_FOUND_FRAGMENT, "");
  }

  lemma AssigneeNotFoundMessage()
    ensures Contains(ASSIGNEE_NOT_FOUND, NOT_FOUND_FRAGMENT)
  {
    assert ASSIGNEE_NOT_FOUND == "Assignee " + NOT_FOUND_FRAGMENT + "";
    ContainsInfix("Assignee ", NOT_FOUND_FRAGMENT, "");
  }

  lemma AssigneeNotInTeamMessage()
    ensures Contains(ASSIGNEE_NOT_IN_TEAM, NOT_FOUND_FRAGMENT)
  {
    assert ASSIGNEE_NOT_IN_TEAM == "Assignee " + NOT_FOUND_FRAGMENT + " in user's team";
    ContainsInfix("Assignee ", NOT_FOUND_FRAGMENT, " in user's team");
  }

  lemma ProjectNotFoundMessage()
    ensures Contains(PROJECT_NOT_FOUND, NOT_FOUND_FRAGMENT)
  {
    assert PROJECT_NOT_FOUND == "Project " + NOT_FOUND_FRAGMENT + "";
    ContainsInfix("Project ", NOT_FOUND_FRAGMENT, "");
  }

  lemma NotFoundMessages()
    ensures Contains(TASK_NOT_FOUND, NOT_FOUND_FRAGMENT)
    ensures Contains(ASSIGNEE_NOT_FOUND, NOT_FOUND_FRAGMENT)
    ensures Contains(ASSIGNEE_NOT_IN_TEAM, NOT_FOUND_FRAGMENT)
    ensures Contains(PROJECT_NOT_FOUND, NOT_FOUND_FRAGMENT)
  {
    TaskNotFoundMessage();
    AssigneeNotFoundMessage();
    AssigneeNotInTeamMessage();
    ProjectNotFoundMessage();
  }

  /** "Access denied" is not a "not found" message, and is matched by the access test. */
  lemma AccessDeniedMessage()
    ensures !Contains(ACCESS_DENIED, NOT_FOUND_FRAGMENT) && Contains(ACCESS_DENIED, ACCESS_DENIED_FRAGMENT)
  {
    assert 'o' !in ACCESS_DENIED;
    ContainsNeedsChar(ACCESS_DENIED, NOT_FOUND_FRAGMENT, 'o');
    assert ACCESS_DENIED == "" + ACCESS_DENIED_FRAGMENT + "";
    ContainsInfix("", ACCESS_DENIED_FRAGMENT, "");
  }

  /** The missing user's message is matched by neither test. */
  lemma NotAuthenticatedMessage()
    ensures !Contains(NOT_AUTHENTICATED, NOT_FOUND_FRAGMENT) && !Contains(NOT_AUTHENTICATED, ACCESS_DENIED_FRAGMENT)
  {
    assert 'f' !in NOT_AUTHENTICATED && 'A' !in NOT_AUTHENTICATED;
    ContainsNeedsChar(NOT_AUTHENTICATED, NOT_FOUND_FRAGMENT, 'f');
    ContainsNeedsChar(NOT_AUTHENTICATED, ACCESS_DENIED_FRAGMENT, 'A');
  }

  /**
   * The listing endpoints (`getAllTasks`, `getTasksByStatus`, `getTasksAssignedToMe`) catch nothing:
   * 200 with the list, or the service's exception answered by the generic handler.
   */
  function ListResponse(r: Result<seq<Task>>): (resp: Response<seq<Task>>)
    ensures resp.status == OK <==> r.Success?
    ensures r.Success? ==> resp.body == Payload(r.value)
    ensures r.Failure? ==> resp == ExceptionHandler.HandleGenericException(Some(r.message))
  {
    match r
    case Success(tasks) => Response(OK, Payload(tasks))
    case Failure(m) => ExceptionHandler.HandleGenericException(Some(m))
  }

  /** An unauthenticated call to any listing ends as a 500 carrying "User not authenticated". */
  lemma ListingUnauthenticated(tasks: seq<Task>, teams: map<Id, Team>, status: TaskStatus)
    ensures var resp := ListResponse(GetAllTasks(tasks, teams, None));
            resp.status == INTERNAL_SERVER_ERROR && resp.body.response.message == NOT_AUTHENTICATED
    ensures ListResponse(GetTasksByStatus(tasks, teams, None, status)) == ListResponse(GetAllTasks(tasks, teams, None))
    ensures ListResponse(GetTasksAssignedToMe(tasks, None)) == ListResponse(GetAllTasks(tasks, teams, None))
  {
  }

  /** `getTaskById`: 200, 404 when the message says "not found", 403 for any other failure. */
  function GetTaskByIdResponse(r: Result<Task>): (resp: Response<Task>)
    ensures resp.status in {OK, NOT_FOUND, FORBIDDEN}
    ensures resp.status == OK <==> r.Success?
    ensures r.Success? ==> resp.body == Payload(r.value)
    ensures resp.status == NOT_FOUND <==> r.Failure? && Contains(r.message, NOT_FOUND_FRAGMENT)
    ensures resp.status == NOT_FOUND ==> resp.body == Error(TASK_NOT_FOUND_BODY)
    ensures resp.status == FORBIDDEN ==> resp.body == Error(ACCESS_DENIED_BODY)
  {
    match r
    case Success(task) => Response(OK, Payload(task))
    case Failure(m) =>
      if Contains(m, NOT_FOUND_FRAGMENT) then Response(NOT_FOUND, Error(TASK_NOT_FOUND_BODY))
      else Response(FORBIDDEN, Error(ACCESS_DENIED_BODY))
  }

  /** End to end: 404 exactly when no task has the id, 403 when unauthenticated or not in the task's team. */
  lemma {:induction false} GetTaskByIdStatus(tasks: seq<Task>, teams: map<Id, Team>, principal: Option<User>, id: Id)
    ensures var resp := GetTaskByIdResponse(GetTaskById(tasks, teams, principal, id));
            && (resp.status == OK <==> Authorize(tasks, teams, principal, id).Success?)
            && (resp.status == NOT_FOUND <==> principal.Some? && FindTask(tasks, id).None?)
            && (resp.status == FORBIDDEN <==>
                  principal.None? || Authorize(tasks, teams, principal, id) == Failure(ACCESS_DENIED))
            && (principal.None? ==> resp == Response(FORBIDDEN, Error(ACCESS_DENIED_BODY)))
            && (principal.Some? && FindTask(tasks, id).None? ==> resp == Response(NOT_FOUND, Error(TASK_NOT_FOUND_BODY)))
  {
    NotFoundMessages();
    AccessDeniedMessage();
    NotAuthenticatedMessage();
  }

  /** `createTask`: 201, 404 "RESOURCE_NOT_FOUND" keeping a "not found" message, otherwise 400 "VALIDATION_ERROR". */
  function CreateTaskResponse(r: Result<Task>): (resp: Response<Task>)
    ensures resp.status in {CREATED, NOT_FOUND, BAD_REQUEST}
    ensures resp.status == CREATED <==> r.Success?
    ensures r.Success? ==> resp.body == Payload(r.value)
    ensures r.Failure? ==> resp.body.Error? && resp.body.response.message == r.message
    ensures resp.status == NOT_FOUND <==> r.Failure? && Contains(r.message, NOT_FOUND_FRAGMENT)
    ensures resp.status == NOT_FOUND ==> resp.body == Error(ErrorResponse(r.message, "RESOURCE_NOT_FOUND", None))
    ensures resp.status == BAD_REQUEST ==> resp.body == Error(ErrorResponse(r.message, "VALIDATION_ERROR", None))
  {
    match r
    case Success(task) => Response(CREATED, Payload(task))
    case Failure(m) =>
      if Contains(m, NOT_FOUND_FRAGMENT) then Response(NOT_FOUND, Error(ErrorResponse(m, "RESOURCE_NOT_FOUND", None)))
      else Response(BAD_REQUEST, Error(ErrorResponse(m, "VALIDATION_ERROR", None)))
  }

  /** End to end: every check of `createTask` that fails is a 404; only the missing user is a 400. */
  lemma {:induction false} CreateTaskStatus(users: seq<User>, teams: map<Id, Team>, principal: Option<User>,
                                            req: CreateTaskRequest, newId: Id)
    ensures var r := PlanCreate(users, teams, principal, req, newId);
            var resp := CreateTaskResponse(r);
            && (resp.status == CREATED <==> r.Success?)
            && (resp.status == BAD_REQUEST <==> principal.None?)
            && (resp.status == NOT_FOUND <==> principal.Some? && r.Failure?)
            && (principal.None? ==>
                  resp == Response(BAD_REQUEST, Error(ErrorResponse(NOT_AUTHENTICATED, "VALIDATION_ERROR", None))))
            && (principal.Some? && r.Failure? ==>
                  resp == Response(NOT_FOUND, Error(ErrorResponse(r.message, "RESOURCE_NOT_FOUND", None))))
  {
    NotFoundMessages();
    AccessDeniedMessage();
    NotAuthenticatedMessage();
  }

  /** `updateTask`: 200; 404 "Task not found" for any "not found"; 403 for "Access denied"; otherwise 400. */
  function UpdateTaskResponse(r: Result<Task>): (resp: Response<Task>)
    ensures resp.status in {OK, NOT_FOUND, FORBIDDEN, BAD_REQUEST}
    ensures resp.status == OK <==> r.Success?
    ensures r.Success? ==> resp.body == Payload(r.value)
    ensures resp.status == NOT_FOUND <==> r.Failure? && Contains(r.message, NOT_FOUND_FRAGMENT)
    ensures resp.status == NOT_FOUND ==> resp.body == Error(TASK_NOT_FOUND_BODY)
    ensures resp.status == FORBIDDEN <==>
              r.Failure? && !Contains(r.message, NOT_FOUND_FRAGMENT) && Contains(r.message, ACCESS_DENIED_FRAGMENT)
    ensures resp.status == FORBIDDEN ==> resp.body == Error(ACCESS_DENIED_BODY)
    ensures resp.status == BAD_REQUEST ==> resp.body == Error(ErrorResponse(r.message, "VALIDATION_ERROR", None))
  {
    match r
    case Success(task) => Response(OK, Payload(task))
    case Failure(m) =>
      if Contains(m, NOT_FOUND_FRAGMENT) then Response(NOT_FOUND, Error(TASK_NOT_FOUND_BODY))
      else if Contains(m, ACCESS_DENIED_FRAGMENT) then Response(FORBIDDEN, Error(ACCESS_DENIED_BODY))
      else Response(BAD_REQUEST, Error(ErrorResponse(m, "VALIDATION_ERROR", None)))
  }

  /**
   * End to end: a rejected assignee is reported as "Task not found", the same as a missing task;
   * only "Access denied" is a 403 and only the missing user a 400.
   */
  lemma {:induction false} UpdateTaskStatus(tasks: seq<Task>, users: seq<User>, teams: map<Id, Team>,
                                            principal: Option<User>, id: Id, req: UpdateTaskRequest)
    ensures var r := PlanUpdate(tasks, users, teams, principal, id, req);
            var resp := UpdateTaskResponse(r);
            && (resp.status == OK <==> r.Success?)
            && (resp.status == FORBIDDEN <==> Authorize(tasks, teams, principal, id) == Failure(ACCESS_DENIED))
            && (resp.status == BAD_REQUEST <==> principal.None?)
            && (resp.status == NOT_FOUND <==>
                  principal.Some? && r.Failure? && r.message in {TASK_NOT_FOUND, ASSIGNEE_NOT_FOUND, ASSIGNEE_NOT_IN_TEAM})
            && (resp.status == NOT_FOUND ==> resp == Response(NOT_FOUND, Error(TASK_NOT_FOUND_BODY)))
            && (resp.status == FORBIDDEN ==> resp == Response(FORBIDDEN, Error(ACCESS_DENIED_BODY)))
            && (principal.None? ==>
                  resp == Response(BAD_REQUEST, Error(ErrorResponse(NOT_AUTHENTICATED, "VALIDATION_ERROR", None))))
  {
    NotFoundMessages();
    AccessDeniedMessage();
    NotAuthenticatedMessage();
  }

  /** `deleteTask`: 200 with an empty object; 404, 403, or 400 "ERROR" keeping the message. */
  function DeleteTaskResponse(r: Result<()>): (resp: Response<map<string, string>>)
    ensures resp.status in {OK, NOT_FOUND, FORBIDDEN, BAD_REQUEST}
    ensures resp.status == OK <==> r.Success?
    ensures r.Success? ==> resp.body == Payload(map[])
    ensures resp.status == NOT_FOUND <==> r.Failure? && Contains(r.message, NOT_FOUND_FRAGMENT)
    ensures resp.status == FORBIDDEN <==>
              r.Failure? && !Contains(r.message, NOT_FOUND_FRAGMENT) && Contains(r.message, ACCESS_DENIED_FRAGMENT)
    ensures resp.status == NOT_FOUND ==> resp.body == Error(TASK_NOT_FOUND_BODY)
    ensures resp.status == FORBIDDEN ==> resp.body == Error(ACCESS_DENIED_BODY)
    ensures resp.status == BAD_REQUEST ==> resp.body == Error(ErrorResponse(r.message, "ERROR", None))
  {
    match r
    case Success(_) => Response(OK, Payload(map[]))
    case Failure(m) =>
      if Contains(m, NOT_FOUND_FRAGMENT) then Response(NOT_FOUND, Error(TASK_NOT_FOUND_BODY))
      else if Contains(m, ACCESS_DENIED_FRAGMENT) then Response(FORBIDDEN, Error(ACCESS_DENIED_BODY))
      else Response(BAD_REQUEST, Error(ErrorResponse(m, "ERROR", None)))
  }

  /** End to end: 404 exactly when no task has the id, 403 when not in its team, 400 when unauthenticated. */
  lemma {:induction false} DeleteTaskStatus(tasks: seq<Task>, teams: map<Id, Team>, principal: Option<User>, id: Id)
    ensures var resp := DeleteTaskResponse(DeleteOutcome(tasks, teams, principal, id));
            && (resp.status == OK <==> Authorize(tasks, teams, principal, id).Success?)
            && (resp.status == NOT_FOUND <==> principal.Some? && FindTask(tasks, id).None?)
            && (resp.status == FORBIDDEN <==> Authorize(tasks, teams, principal, id) == Failure(ACCESS_DENIED))
            && (resp.status == BAD_REQUEST <==> principal.None?)
            && (principal.None? ==> resp == Response(BAD_REQUEST, Error(ErrorResponse(NOT_AUTHENTICATED, "ERROR", None))))
            && (principal.Some? && FindTask(tasks, id).None? ==> resp == Response(NOT_FOUND, Error(TASK_NOT_FOUND_BODY)))
            && (resp.status == FORBIDDEN ==> resp == Response(FORBIDDEN, Error(ACCESS_DENIED_BODY)))
  {
    NotFoundMessages();
    AccessDeniedMessage();
    NotAuthenticatedMessage();
  }
}
