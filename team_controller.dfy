/** TeamController: how the team service's outcome becomes an HTTP response. */
module TeamController {
  import opened Wrappers
  import opened Text
  import opened Entities
  import opened Http
  import opened Teams
  import ExceptionHandler

  const TEAM_NOT_FOUND_BODY: ErrorResponse := ErrorResponse("Team not found", "TEAM_NOT_FOUND", None)

  /** "Team not found" passes the "not found" test. */
  lemma TeamNotFoundMessage()
    ensures Contains(TEAM_NOT_FOUND, NOT_FOUND_FRAGMENT)
  {
    assert TEAM_NOT_FOUND == "Team " + NOT_FOUND_FRAGMENT + "";
    ContainsInfix("Team ", NOT_FOUND_FRAGMENT, "");
  }

  /** "Access denied" and the missing user's message do not. */
  lemma OtherTeamMessages()
    ensures !Contains(ACCESS_DENIED, NOT_FOUND_FRAGMENT)
    ensures !Contains(NOT_AUTHENTICATED, NOT_FOUND_FRAGMENT)
  {
    assert 'o' !in ACCESS_DENIED;
    ContainsNeedsChar(ACCESS_DENIED, NOT_FOUND_FRAGMENT, 'o');
    assert 'f' !in NOT_AUTHENTICATED;
    ContainsNeedsChar(NOT_AUTHENTICATED, NOT_FOUND_FRAGMENT, 'f');
  }

  /** `getAllTeams`: the caller's teams, or the service's exception left to the generic handler. */
  function GetAllTeamsResponse(r: Result<map<Id, Team>>): (resp: Response<map<Id, Team>>)
    ensures resp.status == OK <==> r.Success?
    ensures r.Success? ==> resp.body == Payload(r.value)
    ensures r.Failure? ==> resp == ExceptionHandler.HandleGenericException(Some(r.message))
  {
    match r
    case Success(teams) => Response(OK, Payload(teams))
    case Failure(m) => ExceptionHandler.HandleGenericException(Some(m))
  }

  /** The mapping `getTeamById` and `getTeamMembers` both apply: 200, 404 for "not found", else 403. */
  function ReadResponse<T>(r: Result<T>): (resp: Response<T>)
    ensures resp.status in {OK, NOT_FOUND, FORBIDDEN}
    ensures resp.status == OK <==> r.Success?
    ensures r.Success? ==> resp.body == Payload(r.value)
    ensures resp.status == NOT_FOUND <==> r.Failure? && Contains(r.message, NOT_FOUND_FRAGMENT)
    ensures resp.status == NOT_FOUND ==> resp.body == Error(TEAM_NOT_FOUND_BODY)
    ensures resp.status == FORBIDDEN ==> resp.body == Error(ACCESS_DENIED_BODY)
  {
    match r
    case Success(v) => Response(OK, Payload(v))
    case Failure(m) =>
      if Contains(m, NOT_FOUND_FRAGMENT) then Response(NOT_FOUND, Error(TEAM_NOT_FOUND_BODY))
      else Response(FORBIDDEN, Error(ACCESS_DENIED_BODY))
  }

  /** End to end: 200 for a member, 404 when no team has the id, 403 when unauthenticated or not a member. */
  lemma {:induction false} TeamReadStatus(teams: map<Id, Team>, principal: Option<User>, id: Id)
    ensures var resp := ReadResponse(GetTeamById(teams, principal, id));
            && (resp.status == OK <==> principal.Some? && id in teams && IsMember(teams[id], principal.value.id))
            && (resp.status == NOT_FOUND <==> principal.Some? && id !in teams)
            && (resp.status == FORBIDDEN <==>
                  principal.None? || (id in teams && !IsMember(teams[id], principal.value.id)))
    ensures ReadResponse(GetTeamMembers(teams, principal, id)).status
            == ReadResponse(GetTeamById(teams, principal, id)).status
  {
    TeamNotFoundMessage();
    OtherTeamMessages();
  }

  /** `createTeam`: 201 with the team, or 400 "VALIDATION_ERROR" keeping the exception's message. */
  function CreateTeamResponse(r: Result<Team>): (resp: Response<Team>)
    ensures resp.status == CREATED <==> r.Success?
    ensures r.Success? ==> resp.body == Payload(r.value)
    ensures r.Failure? ==> resp == Response(BAD_REQUEST, Error(ErrorResponse(r.message, "VALIDATION_ERROR", None)))
  {
    match r
    case Success(team) => Response(CREATED, Payload(team))
    case Failure(m) => Response(BAD_REQUEST, Error(ErrorResponse(m, "VALIDATION_ERROR", None)))
  }

  /** End to end: creating a team answers 400 only for the missing user, and 201 with the stored team otherwise. */
  method CreateTeam(service: TeamService, principal: Option<User>, request: TeamRequest.CreateTeamRequest, now: int)
    returns (resp: Response<Team>)
    requires service.Valid() && request.name.Some?
    modifies service
    ensures service.Valid()
    ensures resp.status == BAD_REQUEST <==> principal.None?
    ensures principal.None? ==>
              resp == Response(BAD_REQUEST, Error(ErrorResponse(NOT_AUTHENTICATED, "VALIDATION_ERROR", None)))
              && service.State() == old(service.State())
    ensures principal.Some? ==>
              var step := CreateTeamStep(old(service.State()), principal.value.id, request.name.value,
                                         request.description, request.GetParticipants(), request.GetMembers(), now);
              service.State() == step.0 && resp == Response(CREATED, Payload(step.1))
    ensures resp.status == CREATED ==> resp.body.Payload? && resp.body.value.id in service.teams
                                       && service.teams[resp.body.value.id] == resp.body.value
  {
    var r := service.CreateTeam(principal, request, now);
    resp := CreateTeamResponse(r);
  }
}
