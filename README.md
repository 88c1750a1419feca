# Pulse access control, modelled in Dafny

Pulse is a team task tracker: a REST back end in Spring Boot whose users sign in through Firebase.
This project models the part of the back end that decides who may see and change what.

- **Token filter.** Each request passes through the bearer-token filter. A verified identity-provider
  subject is resolved to a local user just in time: found by subject id, else bound to an account with the
  same email, else created.
- **Teams.** The team service creates teams, with a 3-second de-duplication cache keyed by
  `<userId>_<name>`. It serves team reads only to members of the team.
- **Tasks.** The task service filters and guards tasks by team membership. It checks that an assignee
  shares a team with the caller.
- **Controllers.** The two controllers turn service exceptions into HTTP statuses by substring tests on
  the exception message. The global exception handler answers bean-validation failures and uncaught
  exceptions.

How the system's parts appear in the model:

- **Stores are values or class fields.**
  - Users are a `seq<User>` whose index is the id, inside the `UserRepository` class.
  - Teams are a `map<Id, Team>` plus the next id, inside `TeamService`.
  - Tasks are a `seq<Task>` in repository order, inside `TaskService`.
- **The current user** is `principal: Option<User>`. `None` stands for the "User not authenticated"
  exception.
- **A service exception** is `Result.Failure(message)`.
- **The clock** is a `now` parameter in milliseconds.
- **The identity provider** is a function parameter `verify`.
- **Specification functions.** Each service operation that changes the store is a method. It is proved
  equal to a pure specification function (`Resolve`, `CreateTeamStep`, `PlanCreate`, `PlanUpdate`). The
  lemmas about that function state the promised properties.

Where the code and the design intent differ, the model follows the code:

- A task with no project is visible to every user.
- The assignee check asks only whether the caller and the assignee share some team.
- Creating a task in a project does not check that the caller belongs to the project. The task can then
  be invisible to its creator (`Tasks.CreateInForeignProject`).
- Binding an account found by email overwrites any subject id it already had.
- On update, a rejected assignee ("Assignee not found in user's team") contains "not found". It is
  therefore answered as 404 "Task not found" (`TaskController.UpdateTaskStatus`).
- An unauthenticated call to a task or team listing reaches the generic handler as a 500.
- `getTasksAssignedToMe` applies no visibility filter (`Tasks.AssignedListingIgnoresVisibility`).

## Model

| member | source | states |
|---|---|---|
| Text.StartsWith | src/main/java/com/pulse/security/FirebaseTokenFilter.java:35 | `startsWith` holds exactly when the prefix fits and agrees with the string position by position |
| Text.Contains | src/main/java/com/pulse/controller/TaskController.java:37 | a contained pattern is no longer than the message; the empty pattern is always contained |
| Text.ContainsAt | src/main/java/com/pulse/controller/TaskController.java:37 | `contains` holds when the pattern occurs at some position |
| Text.ContainsInfix | src/main/java/com/pulse/controller/TaskController.java:52 | a message built around "not found" passes the `contains("not found")` test |
| Text.ContainsNeedsChar | src/main/java/com/pulse/controller/TaskController.java:71 | `contains` fails when the pattern holds a character the message lacks |
| Text.Decimal | src/main/java/com/pulse/service/TeamService.java:79 | the decimal rendering of an id is non-empty, all digits, one digit exactly below 10 |
| Text.DecimalInjective | src/main/java/com/pulse/service/TeamService.java:79 | distinct ids render to distinct decimal strings |
| Text.SeparatedInjective | src/main/java/com/pulse/service/TeamService.java:79 | joining with a separator absent from the left parts is injective |
| Entities.IsMember | src/main/java/com/pulse/service/TeamService.java:66 | `existsByTeamAndUser` holds exactly when some membership row of the team names the user |
| Entities.TeamsOf | src/main/java/com/pulse/service/TeamService.java:56 | `findByUserMembership` yields exactly the stored teams with a membership row for the user |
| Entities.FirstIndex | src/main/java/com/pulse/service/TaskService.java:47-48 | the first index whose row satisfies the query, and none exactly when no row does; the lookup the finders share |
| Users.FindByFirebaseUid | src/main/java/com/pulse/security/FirebaseTokenFilter.java:64 | finds a row with that subject id exactly when one exists; with subject ids unique it is that row |
| Users.FindByEmail | src/main/java/com/pulse/security/FirebaseTokenFilter.java:68 | finds the first row with that email exactly when one exists |
| Users.FindById | src/main/java/com/pulse/service/TaskService.java:66-67 | `findById` finds a user exactly when the id is stored, and returns that row, whose id is the one asked for |
| Users.UserRepository.Insert | src/main/java/com/pulse/security/FirebaseTokenFilter.java:83-87 | saving a new user appends it under the next id and logs the write |
| Users.UserRepository.Update | src/main/java/com/pulse/security/FirebaseTokenFilter.java:72-76 | saving an existing user replaces only its row and logs the write |
| TokenFilter.ReadCredential | src/main/java/com/pulse/security/FirebaseTokenFilter.java:33-48 | no header or no "Bearer " prefix means no credential; the token is the rest of the header and must start with "eyJ" |
| TokenFilter.BearerRoundTrip | src/main/java/com/pulse/security/FirebaseTokenFilter.java:35-36 | reading "Bearer " + token gives the token back, or a format rejection |
| TokenFilter.Rebind | src/main/java/com/pulse/security/FirebaseTokenFilter.java:70-76 | a user found by email keeps id and email, takes the subject id, and takes the token's name only when it is non-empty |
| TokenFilter.ClassifyFailure | src/main/java/com/pulse/security/FirebaseTokenFilter.java:114-131 | 401 exactly for expired or revoked tokens, each with its "Please login again." text; else 403 with "Authentication failed", "Invalid token format." or "Authentication failed: " + the message |
| TokenFilter.Resolve | src/main/java/com/pulse/security/FirebaseTokenFilter.java:64-102 | the resolved user carries the subject id, and at most one user is saved |
| TokenFilter.ResolveKnownSubject | src/main/java/com/pulse/security/FirebaseTokenFilter.java:64 | a known subject resolves to its user with no write |
| TokenFilter.ResolveByEmail | src/main/java/com/pulse/security/FirebaseTokenFilter.java:67-79 | an email match is bound to the subject and renamed only for a non-empty name; only it is saved |
| TokenFilter.ResolveCreates | src/main/java/com/pulse/security/FirebaseTokenFilter.java:80-101 | otherwise one user is created with the claimed email or "unknown@example.com" |
| TokenFilter.ResolveFrame | src/main/java/com/pulse/security/FirebaseTokenFilter.java:64-102 | resolution changes no other user and keeps ids equal to positions |
| TokenFilter.ResolveBindsSubject | src/main/java/com/pulse/security/FirebaseTokenFilter.java:64-102 | afterwards `findByFirebaseUid` finds the returned user |
| TokenFilter.ResolveIdempotent | src/main/java/com/pulse/security/FirebaseTokenFilter.java:64-102 | a second request with the same subject takes the lookup path and writes nothing |
| TokenFilter.ResolvePreservesUidsUnique | src/main/java/com/pulse/security/FirebaseTokenFilter.java:64-102 | no two users ever share a subject id |
| TokenFilter.PlaceholderEmailShared | src/main/java/com/pulse/security/FirebaseTokenFilter.java:91-101 | two email-less first sign-ins create two users with the same placeholder email |
| TokenFilter.ResolveUser | src/main/java/com/pulse/security/FirebaseTokenFilter.java:63-102 | the store ends as `Resolve` says and saves exactly its writes |
| TokenFilter.DoFilterInternal | src/main/java/com/pulse/security/FirebaseTokenFilter.java:31-149 | the request continues exactly with no credential or a verified token; each rejection's status and text; the store is untouched except by resolution |
| TeamRequest.CreateTeamRequest.constructor | src/main/java/com/pulse/dto/CreateTeamRequest.java:19 | a new request holds an empty participant list |
| TeamRequest.CreateTeamRequest.SetParticipants | src/main/java/com/pulse/dto/CreateTeamRequest.java:22-31 | a null list is stored as empty; name and description are unchanged |
| TeamRequest.CreateTeamRequest.GetParticipants | src/main/java/com/pulse/dto/CreateTeamRequest.java:34-37 | the stored list, or empty in place of null |
| TeamRequest.CreateTeamRequest.GetMembers | src/main/java/com/pulse/dto/CreateTeamRequest.java:40-43 | always equal to `getParticipants` |
| TeamRequest.CreateTeamRequest.SetName | src/main/java/com/pulse/dto/CreateTeamRequest.java:46-48 | sets the name and nothing else |
| TeamRequest.CreateTeamRequest.SetDescription | src/main/java/com/pulse/dto/CreateTeamRequest.java:50-52 | sets the description and nothing else |
| Teams.DuplicateKeyInjective | src/main/java/com/pulse/service/TeamService.java:79 | distinct (user, name) pairs never share a cache key |
| Teams.Purge | src/main/java/com/pulse/service/TeamService.java:83-85 | exactly the entries at most 5000 ms old survive, unchanged |
| Teams.PurgeLater | src/main/java/com/pulse/service/TeamService.java:83-85 | a later purge subsumes an earlier one |
| Teams.Suppressor | src/main/java/com/pulse/service/TeamService.java:88-99 | a create is suppressed exactly when its key is under 3000 ms old and its team still exists |
| Teams.MembersFallbackIsDead | src/main/java/com/pulse/service/TeamService.java:130-133 | since `getMembers` aliases `getParticipants`, the members fallback never changes the choice |
| Teams.AsParticipants | src/main/java/com/pulse/service/TeamService.java:137-145 | one participant per request entry, in order, same name and role |
| Teams.CopyParticipants | src/main/java/com/pulse/service/TeamService.java:135-145 | the participant loop builds exactly `AsParticipants` |
| Teams.NewTeam | src/main/java/com/pulse/service/TeamService.java:102-111 | the creator is the team's only member, as ADMIN |
| Teams.CreateTeamStep | src/main/java/com/pulse/service/TeamService.java:74-162 | the returned team is stored and the key names it; existing teams are unchanged; ids stay well formed |
| Teams.SuppressedCreate | src/main/java/com/pulse/service/TeamService.java:88-98 | a suppressed create returns the existing team and writes only the purge |
| Teams.RealCreate | src/main/java/com/pulse/service/TeamService.java:102-157 | otherwise exactly one team is saved under a fresh id, and the key is recorded with that id and `now` |
| Teams.StaleOrDanglingEntryDoesNotSuppress | src/main/java/com/pulse/service/TeamService.java:89-93 | an entry 3000 ms old or naming a missing team never suppresses |
| Teams.RetryWithinWindowReturnsSameTeam | src/main/java/com/pulse/service/TeamService.java:88-98 | a same-key retry within 3000 ms returns the same team and saves nothing |
| Teams.RetryAfterWindowCreatesAnother | src/main/java/com/pulse/service/TeamService.java:83-89 | a same-key create 3000 ms later saves a second, distinct team |
| Teams.RetriesDoNotExtendWindow | src/main/java/com/pulse/service/TeamService.java:88-156 | suppressed retries do not refresh the entry, so the window runs from the real create |
| Teams.TeamAccess | src/main/java/com/pulse/service/TeamService.java:61-68 | "Team not found" before "Access denied"; success exactly for a member |
| Teams.GetTeamById | src/main/java/com/pulse/service/TeamService.java:61-71 | returns the stored team only to a member |
| Teams.GetTeamMembers | src/main/java/com/pulse/service/TeamService.java:164-176 | returns the team's membership rows, which include the caller |
| Teams.GetAllTeams | src/main/java/com/pulse/service/TeamService.java:54-59 | exactly the teams the caller is a member of |
| Teams.DuplicateKey | src/main/java/com/pulse/service/TeamService.java:79 | the key ends with "_" and the name, and what precedes is all digits (its injectivity is `DuplicateKeyInjective`) |
| Teams.ParticipantsToAdd | src/main/java/com/pulse/service/TeamService.java:130-133 | the participants when there are any, otherwise the members list |
| Teams.TeamService.CreateTeam | src/main/java/com/pulse/service/TeamService.java:74-162 | the service state ends as `CreateTeamStep` says; an unauthenticated call changes nothing |
| Tasks.VisibilityCases | src/main/java/com/pulse/service/TaskService.java:158-163 | a task without a project is visible to all, otherwise exactly to the project's members |
| Tasks.SameTeamMeansSharedTeam | src/main/java/com/pulse/service/TaskService.java:165-170 | the same-team check is symmetric and means some stored team lists both users |
| Tasks.BelongsToUserTeam | src/main/java/com/pulse/service/TaskService.java:158-163 | a task is visible exactly when it has no project or its project is one of the user's teams |
| Tasks.IsUserInSameTeam | src/main/java/com/pulse/service/TaskService.java:165-170 | two users share a team exactly when some stored team has membership rows for both |
| Tasks.FindTask | src/main/java/com/pulse/service/TaskService.java:47-48 | finds the first task with the id, and none exactly when no task has it |
| Tasks.NoTeamNoAssignee | src/main/java/com/pulse/service/TaskService.java:165-170 | a user in no team shares a team with nobody, not even themself |
| Tasks.VisibleTasks | src/main/java/com/pulse/service/TaskService.java:39-40 | a task is listed exactly when it is stored and visible |
| Tasks.WithStatus | src/main/java/com/pulse/service/TaskService.java:145 | a task is listed exactly when it is stored and has the status |
| Tasks.VisibleTasksAppend | src/main/java/com/pulse/service/TaskService.java:37-43 | the visibility filter keeps store order |
| Tasks.WithStatusAppend | src/main/java/com/pulse/service/TaskService.java:145 | the status query keeps store order |
| Tasks.StatusAndVisibilityCommute | src/main/java/com/pulse/service/TaskService.java:143-149 | by-status listing equals filtering the full listing by status |
| Tasks.GetAllTasks | src/main/java/com/pulse/service/TaskService.java:37-43 | exactly the visible tasks, in store order; fails only when unauthenticated |
| Tasks.GetTasksByStatus | src/main/java/com/pulse/service/TaskService.java:143-149 | exactly the visible tasks with the status |
| Tasks.AssignedTo | src/main/java/com/pulse/service/TaskService.java:153 | a task is listed exactly when it is assigned to the user |
| Tasks.GetTasksAssignedToMe | src/main/java/com/pulse/service/TaskService.java:151-156 | exactly the tasks assigned to the caller, in store order (`AssignedTo`); fails only when unauthenticated |
| Tasks.AssignedListingIgnoresVisibility | src/main/java/com/pulse/service/TaskService.java:151-156 | an assigned task outside the caller's teams is listed here but not by `getAllTasks` |
| Tasks.Authorize | src/main/java/com/pulse/service/TaskService.java:45-52 | "Task not found" exactly when no task has the id, then "Access denied" exactly when it is not visible, success exactly otherwise with the found index |
| Tasks.GetTaskById | src/main/java/com/pulse/service/TaskService.java:45-55 | returns the task with that id only when visible to the caller |
| Tasks.CheckAssignee | src/main/java/com/pulse/service/TaskService.java:65-72 | passes exactly for a stored user sharing a team with the caller; which message otherwise |
| Tasks.PlanCreate | src/main/java/com/pulse/service/TaskService.java:58-88 | the saved task carries the request's fields; its assignee shares a team with the caller and its project exists; an assignee error is returned as is; with the assignee accepted it succeeds exactly when the project exists; the possible messages |
| Tasks.AssigneeCheckedBeforeProject | src/main/java/com/pulse/service/TaskService.java:65-81 | an assignee error is thrown whatever project was asked for |
| Tasks.UnknownProjectRejected | src/main/java/com/pulse/service/TaskService.java:77-79 | an unknown project is "Project not found" once the assignee passes |
| Tasks.CreateInForeignProject | src/main/java/com/pulse/service/TaskService.java:77-81 | a task can be created in a project the caller is not in, and is then invisible to them |
| Tasks.ApplyUpdate | src/main/java/com/pulse/service/TaskService.java:100-124 | each non-null field replaces the task's; id and project never change |
| Tasks.ApplyUpdateLaws | src/main/java/com/pulse/service/TaskService.java:100-124 | an all-null update changes nothing; applying an update twice equals once |
| Tasks.PlanUpdate | src/main/java/com/pulse/service/TaskService.java:91-128 | succeeds only after authorization, with `ApplyUpdate` of the stored task; after authorization an assignee error is returned as is and an accepted (or absent) assignee means success; the possible messages |
| Tasks.UpdateKeepsVisibility | src/main/java/com/pulse/service/TaskService.java:91-128 | an updated task keeps its id and project, so it stays visible to its updater |
| Tasks.DeleteOutcome | src/main/java/com/pulse/service/TaskService.java:130-141 | `deleteTask` succeeds exactly when the guard passes, and otherwise reports the guard's exception |
| Tasks.RemoveAt | src/main/java/com/pulse/service/TaskService.java:140 | deletion removes exactly one occurrence |
| Tasks.DeleteRemovesOnlyThatTask | src/main/java/com/pulse/service/TaskService.java:140 | after deletion no task has that id, every other task remains, and ids stay unique |
| Tasks.TaskService.CreateTask | src/main/java/com/pulse/service/TaskService.java:57-88 | the outcome is `PlanCreate`'s; on success the task is appended under a fresh id, otherwise nothing changes |
| Tasks.TaskService.UpdateTask | src/main/java/com/pulse/service/TaskService.java:90-128 | the outcome is `PlanUpdate`'s; on success only that task is replaced, otherwise nothing changes |
| Tasks.TaskService.ApplyRequest | src/main/java/com/pulse/service/TaskService.java:100-124 | the field copying yields `ApplyUpdate`, or the assignee error |
| Tasks.TaskService.DeleteTask | src/main/java/com/pulse/service/TaskService.java:130-141 | the outcome is `DeleteOutcome`'s; removes the task exactly when authorized, otherwise the store is unchanged |
| TaskController.TaskNotFoundMessage | src/main/java/com/pulse/controller/TaskController.java:37 | "Task not found" passes the "not found" test |
| TaskController.AssigneeNotFoundMessage | src/main/java/com/pulse/controller/TaskController.java:52 | "Assignee not found" passes the "not found" test |
| TaskController.AssigneeNotInTeamMessage | src/main/java/com/pulse/controller/TaskController.java:67 | "Assignee not found in user's team" passes the "not found" test |
| TaskController.ProjectNotFoundMessage | src/main/java/com/pulse/controller/TaskController.java:52 | "Project not found" passes the "not found" test |
| TaskController.NotFoundMessages | src/main/java/com/pulse/controller/TaskController.java:52 | all four "not found" messages of the task service pass the test |
| TaskController.AccessDeniedMessage | src/main/java/com/pulse/controller/TaskController.java:67-71 | "Access denied" fails the "not found" test and passes the "Access denied" test |
| TaskController.NotAuthenticatedMessage | src/main/java/com/pulse/controller/TaskController.java:67-71 | "User not authenticated" fails both tests |
| TaskController.ListResponse | src/main/java/com/pulse/controller/TaskController.java:25-29 | the listing endpoints answer 200 with the list, or leave the exception to the generic handler |
| TaskController.ListingUnauthenticated | src/main/java/com/pulse/controller/TaskController.java:99-109 | an unauthenticated listing, by status or assigned-to-me alike, ends as a 500 carrying "User not authenticated" |
| TaskController.GetTaskByIdResponse | src/main/java/com/pulse/controller/TaskController.java:31-44 | 200 exactly on success with the task; 404 "TASK_NOT_FOUND" body exactly for a message containing "not found"; otherwise 403 "ACCESS_DENIED" body |
| TaskController.GetTaskByIdStatus | src/main/java/com/pulse/controller/TaskController.java:31-44 | end to end: 404 "Task not found" exactly for an unknown id, 403 "Access denied" for unauthenticated or invisible, 200 when authorized |
| TaskController.CreateTaskResponse | src/main/java/com/pulse/controller/TaskController.java:46-59 | 201 with the task on success; 404 "RESOURCE_NOT_FOUND" for "not found" messages, else 400 "VALIDATION_ERROR"; both keep the message |
| TaskController.CreateTaskStatus | src/main/java/com/pulse/controller/TaskController.java:46-59 | end to end: every failed check is a 404 "RESOURCE_NOT_FOUND" with its message, and only the unauthenticated call a 400 "VALIDATION_ERROR" |
| TaskController.UpdateTaskResponse | src/main/java/com/pulse/controller/TaskController.java:61-78 | 200 with the task; 404 "TASK_NOT_FOUND" body for any "not found"; 403 "ACCESS_DENIED" body for "Access denied"; else 400 "VALIDATION_ERROR" keeping the message |
| TaskController.UpdateTaskStatus | src/main/java/com/pulse/controller/TaskController.java:61-78 | end to end: a rejected assignee is reported as "Task not found"; 403 exactly when access is denied; 400 exactly when unauthenticated |
| TaskController.DeleteTaskResponse | src/main/java/com/pulse/controller/TaskController.java:80-97 | 200 with an empty object; 404 "TASK_NOT_FOUND" body for "not found"; 403 "ACCESS_DENIED" body for "Access denied"; else 400 "ERROR" keeping the message |
| TaskController.DeleteTaskStatus | src/main/java/com/pulse/controller/TaskController.java:80-97 | end to end: 404 exactly for an unknown id, 403 for invisible, 400 "ERROR" with "User not authenticated" for unauthenticated, each with its full body |
| TeamController.TeamNotFoundMessage | src/main/java/com/pulse/controller/TeamController.java:35 | "Team not found" passes the "not found" test |
| TeamController.OtherTeamMessages | src/main/java/com/pulse/controller/TeamController.java:35 | "Access denied" and "User not authenticated" fail it |
| TeamController.GetAllTeamsResponse | src/main/java/com/pulse/controller/TeamController.java:23-27 | 200 with the caller's teams, or the generic handler's answer |
| TeamController.ReadResponse | src/main/java/com/pulse/controller/TeamController.java:29-42 | 200 on success; 404 "TEAM_NOT_FOUND" exactly for "not found"; otherwise 403 "ACCESS_DENIED" |
| TeamController.TeamReadStatus | src/main/java/com/pulse/controller/TeamController.java:83-96 | end to end: 404 exactly for an unknown team, 403 for unauthenticated or non-member; the members endpoint answers the same status |
| TeamController.CreateTeamResponse | src/main/java/com/pulse/controller/TeamController.java:44-81 | 201 with the team, or 400 "VALIDATION_ERROR" keeping the message |
| TeamController.CreateTeam | src/main/java/com/pulse/controller/TeamController.java:44-81 | end to end: unauthenticated is 400 "VALIDATION_ERROR" with nothing changed; otherwise 201 with the team `CreateTeamStep` returns and the service in its new state |
| ExceptionHandler.Details | src/main/java/com/pulse/controller/GlobalExceptionHandler.java:20-26 | the details keys are exactly the fields that failed |
| ExceptionHandler.DetailsLastWins | src/main/java/com/pulse/controller/GlobalExceptionHandler.java:21-26 | a field's entry holds the message of its last error |
| ExceptionHandler.HandleValidationExceptions | src/main/java/com/pulse/controller/GlobalExceptionHandler.java:17-30 | 400 "Validation failed" / "VALIDATION_ERROR" with the details map `Details` defines |
| ExceptionHandler.HandleGenericException | src/main/java/com/pulse/controller/GlobalExceptionHandler.java:32-42 | 500 "INTERNAL_ERROR" with the exception's message, or "Internal server error" when it has none |

## Left out

- Logging, `System.out` tracing and response content types: they do not affect outcomes.
- The Firebase SDK is not modelled. Token verification is the `verify` parameter; signature and expiry checks are its business.
- The filter's catch of other runtime exceptions (persistence failures during resolution, 403 with the exception's message) is not modelled: the model's store cannot fail.
- Concurrency: the `synchronized` blocks and the concurrent map in `createTeam` are modelled as one atomic step per call. Two racing requests are not modelled.
- Transactions are not modelled as such. A failed update leaves the store unchanged, which is the rollback's effect.
- DTO projection is left out: assignee names, timestamps, and member user names and emails. Responses carry the stored values.
- Database timestamps: a team's `createdAt` is taken as the `now` of its creation, and task timestamps are omitted.
- Which request fields fail bean validation (a blank team name, a missing task title or status) is not modelled. The handler's answer to such a failure is modelled.
- Teams.TeamService.CreateTeam: requires a non-null name, because bean validation rejects the request before the service runs.
- Long ids are unbounded naturals: Java `long` overflow of ids and of `currentTime - timestamp` is not modelled.
- The `TaskStatus` and `TeamMemberRole` enums, and the `User` and `Task` entity classes, are not part of this model. A status is an opaque name, and the roles are ADMIN and MEMBER.
- ExceptionHandler.HandleValidationExceptions: takes field errors only. A global (non-field) error would make the source's cast fail, and that is not modelled.
- Security configuration (which routes require authentication) is not part of this model. An unauthenticated request therefore reaches the services and fails there.
- TokenFilter.Resolve: `findByEmail` is modelled as returning the first matching row. When two users share an email, which `PlaceholderEmailShared` shows the placeholder makes possible, the source's single-result finder throws instead; the filter's `RuntimeException` catch then answers 403 with the exception's message (FirebaseTokenFilter.java:137-142). That outcome is not modelled. If the `User` entity (not part of this model) declares the email column unique, the second placeholder insert fails instead, which the model's store does not capture either.
