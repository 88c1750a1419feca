/**
 * Team creation with its de-duplication cache, and the guarded team reads (TeamService).
 * The clock is the `now` parameter (milliseconds); the current user is `principal`.
 */
module Teams {
  import opened Wrappers
  import opened Text
  import opened Entities
  import opened TeamRequest

  /** Cache entries older than this are purged on every create. */
  const EVICT_AFTER_MS: int := 5000
  /** A create for a key recorded less than this long ago is suppressed. */
  const SUPPRESS_WITHIN_MS: int := 3000

  const TEAM_NOT_FOUND: string := "Team not found"

  /** What the cache remembers of a creation: the team it made and when. */
  datatype CreationInfo = CreationInfo(teamId: Id, timestamp: int)

  /** The team store, the next id the store will assign, and the de-duplication cache. */
  datatype Registry = Registry(teams: map<Id, Team>, nextTeamId: Id, recent: map<string, CreationInfo>)

  /** Every stored team sits under its own id, below the next id to be assigned. */
  ghost predicate WellFormed(s: Registry) {
    forall id :: id in s.teams ==> id < s.nextTeamId && s.teams[id].id == id
  }

  /** The de-duplication key: the user's id, "_", the requested name. */
  function DuplicateKey(userId: Id, name: string): (r: string)
    ensures |r| >= |name| + 2
    ensures r[|r| - |name|..] == name && r[|r| - |name| - 1] == '_'
    ensures forall i :: 0 <= i < |r| - |name| - 1 ==> '0' <= r[i] <= '9'
  {
    Decimal(userId) + "_" + name
  }

  /** Distinct (user, name) pairs never share a cache entry. */
  lemma DuplicateKeyInjective(u1: Id, n1: string, u2: Id, n2: string)
    requires DuplicateKey(u1, n1) == DuplicateKey(u2, n2)
    ensures u1 == u2 && n1 == n2
  {
    assert "_" == ['_'];
    SeparatedInjective(Decimal(u1), n1, Decimal(u2), n2, '_');
    DecimalInjective(u1, u2);
  }

  /** The purge: exactly the entries aged at most EVICT_AFTER_MS survive, unchanged. */
  function Purge(recent: map<string, CreationInfo>, now: int): (kept: map<string, CreationInfo>)
    ensures forall k :: k in kept <==> k in recent && now - recent[k].timestamp <= EVICT_AFTER_MS
    ensures forall k :: k in kept ==> kept[k] == recent[k]
  {
    map k | k in recent && !(now - recent[k].timestamp > EVICT_AFTER_MS) :: recent[k]
  }

  /** Purging is idempotent, and a later purge subsumes an earlier one. */
  lemma PurgeLater(recent: map<string, CreationInfo>, t1: int, t2: int)
    requires t1 <= t2
    ensures Purge(Purge(recent, t1), t2) == Purge(recent, t2)
  {
  }

  /** The team a create for `key` is suppressed in favour of, if any. */
  function Suppressor(recent: map<string, CreationInfo>, key: string, teams: map<Id, Team>, now: int): (r: Option<Id>)
    ensures r.Some? <==> key in recent && now - recent[key].timestamp < SUPPRESS_WITHIN_MS && recent[key].teamId in teams
    ensures r.Some? ==> r.value == recent[key].teamId
  {
    if key in recent && now - recent[key].timestamp < SUPPRESS_WITHIN_MS && recent[key].teamId in teams
    then Some(recent[key].teamId)
    else None
  }

  /** Participants come from `participants` if non-empty, else from `members`, else there are none. */
  function ParticipantsToAdd(participants: seq<MemberRequest>, members: seq<MemberRequest>): (r: seq<MemberRequest>)
    ensures |participants| > 0 ==> r == participants
    ensures |participants| == 0 ==> r == members
  {
    if |participants| > 0 then participants else if |members| > 0 then members else []
  }

  /** With `getMembers` an alias of `getParticipants`, the fallback to members never changes the choice. */
  lemma MembersFallbackIsDead(request: CreateTeamRequest)
    ensures ParticipantsToAdd(request.GetParticipants(), request.GetMembers()) == request.GetParticipants()
  {
  }

  /** One text participant per request entry, in order, with the same name and role. */
  function AsParticipants(reqs: seq<MemberRequest>): (ps: seq<Participant>)
    ensures |ps| == |reqs|
    ensures forall i :: 0 <= i < |reqs| ==> ps[i] == Participant(reqs[i].name, reqs[i].role)
  {
    seq(|reqs|, i requires 0 <= i < |reqs| => Participant(reqs[i].name, reqs[i].role))
  }

  /** The loop that adds the text participants to the team being built. */
  method CopyParticipants(reqs: seq<MemberRequest>) returns (ps: seq<Participant>)
    ensures ps == AsParticipants(reqs)
  {
    ps := [];
    for i := 0 to |reqs|
      invariant |ps| == i
      invariant forall j :: 0 <= j < i ==> ps[j] == Participant(reqs[j].name, reqs[j].role)
    {
      ps := ps + [Participant(reqs[i].name, reqs[i].role)];
    }
  }

  /** A newly built team: the creator as its only member, with role ADMIN. */
  function NewTeam(id: Id, name: string, description: Option<string>, createdAt: int,
                   creator: Id, reqs: seq<MemberRequest>): (t: Team)
    ensures t.members == [TeamMember(creator, ADMIN)]
    ensures IsMember(t, creator) && forall u :: IsMember(t, u) ==> u == creator
    ensures t.participants == AsParticipants(reqs)
  {
    var t := Team(id, name, description, createdAt, [TeamMember(creator, ADMIN)], AsParticipants(reqs));
    assert t.members[0].userId == creator;
    t
  }

  /**
   * One authenticated create: purge, then either return the team a recent entry names, or build,
   * save and record a new one. The result is the registry afterwards and the team returned.
   */
  function CreateTeamStep(s: Registry, userId: Id, name: string, description: Option<string>,
                          participants: seq<MemberRequest>, members: seq<MemberRequest>, now: int): (r: (Registry, Team))
    requires WellFormed(s)
    ensures WellFormed(r.0)
    ensures r.1.id in r.0.teams && r.0.teams[r.1.id] == r.1
    ensures DuplicateKey(userId, name) in r.0.recent && r.0.recent[DuplicateKey(userId, name)].teamId == r.1.id
    ensures forall id :: id in s.teams ==> id in r.0.teams && r.0.teams[id] == s.teams[id]
  {
    var key := DuplicateKey(userId, name);
    var recent := Purge(s.recent, now);
    match Suppressor(recent, key, s.teams, now)
    case Some(id) => (s.(recent := recent), s.teams[id])
    case None =>
      var team := NewTeam(s.nextTeamId, name, description, now, userId, ParticipantsToAdd(participants, members));
      (Registry(s.teams[s.nextTeamId := team], s.nextTeamId + 1, recent[key := CreationInfo(team.id, now)]), team)
  }

  /** A suppressed create returns the existing team, saves nothing, and only purges the cache. */
  lemma SuppressedCreate(s: Registry, userId: Id, name: string, description: Option<string>,
                         participants: seq<MemberRequest>, members: seq<MemberRequest>, now: int)
    requires WellFormed(s)
    requires Suppressor(Purge(s.recent, now), DuplicateKey(userId, name), s.teams, now).Some?
    ensures var r := CreateTeamStep(s, userId, name, description, participants, members, now);
            && r.0.teams == s.teams && r.0.nextTeamId == s.nextTeamId && r.0.recent == Purge(s.recent, now)
            && r.1 == s.teams[s.recent[DuplicateKey(userId, name)].teamId]
  {
  }

  /**
   * A create not suppressed saves exactly one new team under a fresh id, with the creator as sole
   * ADMIN and the chosen participants, and records the key only with that team's id and `now`.
   */
  lemma RealCreate(s: Registry, userId: Id, name: string, description: Option<string>,
                   participants: seq<MemberRequest>, members: seq<MemberRequest>, now: int)
    requires WellFormed(s)
    requires Suppressor(Purge(s.recent, now), DuplicateKey(userId, name), s.teams, now).None?
    ensures var r := CreateTeamStep(s, userId, name, description, participants, members, now);
            && r.1.id == s.nextTeamId && s.nextTeamId !in s.teams
            && r.0.teams == s.teams[s.nextTeamId := r.1]
            && r.1.name == name && r.1.description == description && r.1.createdAt == now
            && r.1.members == [TeamMember(userId, ADMIN)]
            && r.1.participants == AsParticipants(ParticipantsToAdd(participants, members))
            && r.0.recent == Purge(s.recent, now)[DuplicateKey(userId, name) := CreationInfo(s.nextTeamId, now)]
  {
  }

  /** An entry aged 3000 ms or more, or naming a team no longer stored, never suppresses. */
  lemma StaleOrDanglingEntryDoesNotSuppress(recent: map<string, CreationInfo>, key: string, teams: map<Id, Team>, now: int)
    requires key in recent
    requires now - recent[key].timestamp >= SUPPRESS_WITHIN_MS || recent[key].teamId !in teams
    ensures Suppressor(Purge(recent, now), key, teams, now).None?
  {
  }

  /** A retry by the same user with the same name within 3000 ms of a real create returns the same team and writes nothing. */
  lemma {:induction false} RetryWithinWindowReturnsSameTeam(s: Registry, userId: Id, name: string,
      description: Option<string>, participants: seq<MemberRequest>, members: seq<MemberRequest>, t1: int,
      description2: Option<string>, participants2: seq<MemberRequest>, members2: seq<MemberRequest>, t2: int)
    requires WellFormed(s)
    requires Suppressor(Purge(s.recent, t1), DuplicateKey(userId, name), s.teams, t1).None?
    requires t1 <= t2 < t1 + SUPPRESS_WITHIN_MS
    ensures var r1 := CreateTeamStep(s, userId, name, description, participants, members, t1);
            var r2 := CreateTeamStep(r1.0, userId, name, description2, participants2, members2, t2);
            r2.1 == r1.1 && r2.0.teams == r1.0.teams && r2.0.nextTeamId == r1.0.nextTeamId
  {
    var key := DuplicateKey(userId, name);
    var r1 := CreateTeamStep(s, userId, name, description, participants, members, t1);
    RealCreate(s, userId, name, description, participants, members, t1);
    assert r1.0.recent[key] == CreationInfo(r1.1.id, t1);
    assert Suppressor(Purge(r1.0.recent, t2), key, r1.0.teams, t2) == Some(r1.1.id);
    SuppressedCreate(r1.0, userId, name, description2, participants2, members2, t2);
  }

  /** A same-key create 3000 ms or more after a real create builds a second, distinct team. */
  lemma {:induction false} RetryAfterWindowCreatesAnother(s: Registry, userId: Id, name: string,
      description: Option<string>, participants: seq<MemberRequest>, members: seq<MemberRequest>, t1: int,
      description2: Option<string>, participants2: seq<MemberRequest>, members2: seq<MemberRequest>, t2: int)
    requires WellFormed(s)
    requires Suppressor(Purge(s.recent, t1), DuplicateKey(userId, name), s.teams, t1).None?
    requires t2 >= t1 + SUPPRESS_WITHIN_MS
    ensures var r1 := CreateTeamStep(s, userId, name, description, participants, members, t1);
            var r2 := CreateTeamStep(r1.0, userId, name, description2, participants2, members2, t2);
            r2.1.id != r1.1.id && r1.1.id in r2.0.teams && r2.1.id in r2.0.teams
            && |r2.0.teams.Keys| == |r1.0.teams.Keys| + 1
  {
    var key := DuplicateKey(userId, name);
    var r1 := CreateTeamStep(s, userId, name, description, participants, members, t1);
    RealCreate(s, userId, name, description, participants, members, t1);
    assert r1.0.recent[key] == CreationInfo(r1.1.id, t1);
    assert Suppressor(Purge(r1.0.recent, t2), key, r1.0.teams, t2).None?;
    RealCreate(r1.0, userId, name, description2, participants2, members2, t2);
    var r2 := CreateTeamStep(r1.0, userId, name, description2, participants2, members2, t2);
    assert r2.0.teams.Keys == r1.0.teams.Keys + {r1.0.nextTeamId};
  }

  /**
   * Suppressed retries do not refresh the entry: the window runs from the real create, so a
   * third request 3000 ms after it creates a new team even if it follows a suppressed retry closely.
   */
  lemma {:induction false} RetriesDoNotExtendWindow(s: Registry, userId: Id, name: string,
      description: Option<string>, participants: seq<MemberRequest>, members: seq<MemberRequest>,
      t1: int, t2: int, t3: int)
    requires WellFormed(s)
    requires Suppressor(Purge(s.recent, t1), DuplicateKey(userId, name), s.teams, t1).None?
    requires t1 <= t2 < t1 + SUPPRESS_WITHIN_MS <= t3
    ensures var r1 := CreateTeamStep(s, userId, name, description, participants, members, t1);
            var r2 := CreateTeamStep(r1.0, userId, name, description, participants, members, t2);
            var r3 := CreateTeamStep(r2.0, userId, name, description, participants, members, t3);
            r2.1 == r1.1 && r3.1.id != r1.1.id
  {
    var key := DuplicateKey(userId, name);
    var r1 := CreateTeamStep(s, userId, name, description, participants, members, t1);
    RealCreate(s, userId, name, description, participants, members, t1);
    RetryWithinWindowReturnsSameTeam(s, userId, name, description, participants, members, t1,
                                     description, participants, members, t2);
    var r2 := CreateTeamStep(r1.0, userId, name, description, participants, members, t2);
    SuppressedCreate(r1.0, userId, name, description, participants, members, t2);
    assert r2.0.recent[key] == CreationInfo(r1.1.id, t1);
    assert Suppressor(Purge(r2.0.recent, t3), key, r2.0.teams, t3).None?;
    RealCreate(r2.0, userId, name, description, participants, members, t3);
  }

  /** The shared guard of the team reads: "Team not found" is decided before "Access denied". */
  function TeamAccess(teams: map<Id, Team>, principal: Option<User>, id: Id): (r: Result<Team>)
    ensures principal.None? ==> r == Failure(NOT_AUTHENTICATED)
    ensures principal.Some? && id !in teams ==> r == Failure(TEAM_NOT_FOUND)
    ensures principal.Some? && id in teams && !IsMember(teams[id], principal.value.id) ==> r == Failure(ACCESS_DENIED)
    ensures r.Success? <==> principal.Some? && id in teams && IsMember(teams[id], principal.value.id)
    ensures r.Success? ==> r.value == teams[id]
  {
    if principal.None? then Failure(NOT_AUTHENTICATED)
    else if id !in teams then Failure(TEAM_NOT_FOUND)
    else if !IsMember(teams[id], principal.value.id) then Failure(ACCESS_DENIED)
    else Success(teams[id])
  }

  /** `getTeamById` */
  function GetTeamById(teams: map<Id, Team>, principal: Option<User>, id: Id): (r: Result<Team>)
    ensures r.Success? ==> principal.Some? && id in teams && r.value == teams[id] && IsMember(r.value, principal.value.id)
    ensures r.Failure? ==> r == TeamAccess(teams, principal, id)
  {
    TeamAccess(teams, principal, id)
  }

  /** `getTeamMembers`: the membership rows of a team the caller belongs to, which include the caller. */
  function GetTeamMembers(teams: map<Id, Team>, principal: Option<User>, id: Id): (r: Result<seq<TeamMember>>)
    ensures r.Success? ==> id in teams && r.value == teams[id].members
    ensures r.Success? ==> principal.Some? && exists i :: 0 <= i < |r.value| && r.value[i].userId == principal.value.id
    ensures r.Failure? ==> Failure(r.message) == TeamAccess(teams, principal, id)
  {
    match TeamAccess(teams, principal, id)
    case Success(team) => Success(team.members)
    case Failure(m) => Failure(m)
  }

  /** `getAllTeams`: exactly the teams with a membership row for the caller. */
  function GetAllTeams(teams: map<Id, Team>, principal: Option<User>): (r: Result<map<Id, Team>>)
    ensures principal.None? <==> r.Failure?
    ensures r.Failure? ==> r.message == NOT_AUTHENTICATED
    ensures r.Success? ==> forall id :: id in r.value <==> id in teams && IsMember(teams[id], principal.value.id)
    ensures r.Success? ==> forall id :: id in r.value ==> r.value[id] == teams[id]
  {
    if principal.None? then Failure(NOT_AUTHENTICATED)
    else Success(map id | id in TeamsOf(teams, principal.value.id) :: teams[id])
  }

  class TeamService {
    var teams: map<Id, Team>
    var nextTeamId: Id
    var recentTeamCreations: map<string, CreationInfo>

    ghost predicate Valid()
      reads this
    {
      WellFormed(State())
    }

    function State(): Registry
      reads this
    {
      Registry(teams, nextTeamId, recentTeamCreations)
    }

    constructor ()
      ensures Valid() && teams == map[] && nextTeamId == 0 && recentTeamCreations == map[]
    {
      teams := map[];
      nextTeamId := 0;
      recentTeamCreations := map[];
    }

    /**
     * `createTeam`. The request's name is required (it is validated as not blank before the call).
     * An unauthenticated call changes nothing; otherwise the new state is `CreateTeamStep`'s.
     */
    method CreateTeam(principal: Option<User>, request: CreateTeamRequest, now: int) returns (r: Result<Team>)
      requires Valid() && request.name.Some?
      modifies this
      ensures Valid()
      ensures principal.None? ==> r == Failure(NOT_AUTHENTICATED) && State() == old(State())
      ensures principal.Some? ==>
        var step := CreateTeamStep(old(State()), principal.value.id, request.name.value, request.description,
                                   request.GetParticipants(), request.GetMembers(), now);
        State() == step.0 && r == Success(step.1)
    {
      if principal.None? {
        return Failure(NOT_AUTHENTICATED);
      }
      var currentUser := principal.value;
      var key := DuplicateKey(currentUser.id, request.name.value);

      recentTeamCreations := Purge(recentTeamCreations, now);
      if key in recentTeamCreations && now - recentTeamCreations[key].timestamp < SUPPRESS_WITHIN_MS {
        var existingId := recentTeamCreations[key].teamId;
        if existingId in teams {
          return Success(teams[existingId]);
        }
      }

      var members := [TeamMember(currentUser.id, ADMIN)];
      var participantsList := request.GetParticipants();
      var membersList := request.GetMembers();
      var toAdd := ParticipantsToAdd(participantsList, membersList);
      var participants := CopyParticipants(toAdd);
      // the store assigns the id and stamps the creation time on save
      var team := Team(nextTeamId, request.name.value, request.description, now, members, participants);
      teams := teams[nextTeamId := team];
      nextTeamId := nextTeamId + 1;

      recentTeamCreations := recentTeamCreations[key := CreationInfo(team.id, now)];
      r := Success(team);
    }
  }
}
