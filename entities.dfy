/**
 * The persistent entities the access-control core reads and writes, as values.
 * Stores are modelled by the services that own them (maps and sequences of these values).
 */
module Entities {
  import opened Wrappers

  /** A database identity (JPA `Long id`). */
  type Id = nat

  /** TeamMemberRole; only ADMIN is assigned by the core. */
  datatype Role = ADMIN | MEMBER

  /** A local account; `firebaseUid` is absent until the identity provider's subject is bound to it. */
  datatype User = User(id: Id, email: string, displayName: Option<string>, firebaseUid: Option<string>)

  /** A membership row: the authorization-bearing link between a team and a user. */
  datatype TeamMember = TeamMember(userId: Id, role: Role)

  /** A display-only roster entry with no account behind it (TeamParticipant). */
  datatype Participant = Participant(name: string, role: string)

  /** One entry of a create-team request's participant list (TeamMemberRequest). */
  datatype MemberRequest = MemberRequest(name: string, role: string)

  /** A team with its membership rows and its text participants, both in insertion order. */
  datatype Team = Team(id: Id, name: string, description: Option<string>, createdAt: int,
                       members: seq<TeamMember>, participants: seq<Participant>)

  /** TaskStatus is an enum whose constants are not part of this model: a status is its constant's name. */
  datatype TaskStatus = TaskStatus(name: string)

  /** A task; `project` is the owning team's id (projectId is an alias of teamId). */
  datatype Task = Task(id: Id, title: string, description: Option<string>, status: TaskStatus,
                       assignee: Option<Id>, project: Option<Id>, sprintId: Option<int>, deadline: Option<int>)

  /** The message of the exception thrown when no user is attached to the request. */
  const NOT_AUTHENTICATED: string := "User not authenticated"

  /** The message of the exception thrown when the user is not a member of the team that guards a resource. */
  const ACCESS_DENIED: string := "Access denied"

  /** `existsByTeamAndUser`: the team has a membership row for the user. */
  predicate IsMember(team: Team, userId: Id): (r: bool)
    ensures r <==> exists m :: m in team.members && m.userId == userId
  {
    exists i :: 0 <= i < |team.members| && team.members[i].userId == userId
  }

  /** `findByUserMembership`: the ids of the teams with a membership row for the user. */
  function TeamsOf(teams: map<Id, Team>, userId: Id): (r: set<Id>)
    ensures r <= teams.Keys
    ensures forall t :: t in r ==> IsMember(teams[t], userId)
    ensures forall t :: t in teams && IsMember(teams[t], userId) ==> t in r
  {
    set t | t in teams && IsMember(teams[t], userId)
  }

  /** The first row satisfying a query, as a repository finder returns it. */
  function FirstIndex<T>(s: seq<T>, p: T -> bool): (r: Option<nat>)
    ensures r.Some? ==> r.value < |s| && p(s[r.value])
    ensures r.Some? ==> forall j :: 0 <= j < r.value ==> !p(s[j])
    ensures r.None? ==> forall j :: 0 <= j < |s| ==> !p(s[j])
  {
    if s == [] then None
    else if p(s[0]) then Some(0)
    else match FirstIndex(s[1..], p)
      case None => None
      case Some(k) => Some(k + 1)
  }
}
