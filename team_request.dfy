/** The create-team request body (CreateTeamRequest): a mutable object whose setters normalise null. */
module TeamRequest {
  import opened Wrappers
  import opened Entities

  class CreateTeamRequest {
    var name: Option<string>
    var description: Option<string>
    /** Never null once constructed; `None` stands for a null field. */
    var participants: Option<seq<MemberRequest>>

    ghost predicate Valid()
      reads this
    {
      participants.Some?
    }

    /** A fresh request has no name, no description and an empty participant list. */
    constructor ()
      ensures Valid() && name == None && description == None && participants == Some([])
    {
      name := None;
      description := None;
      participants := Some([]);
    }

    /** `setParticipants`: a null list is stored as an empty one; nothing else changes. */
    method SetParticipants(ps: Option<seq<MemberRequest>>)
      modifies this
      ensures Valid()
      ensures GetParticipants() == (if ps.Some? then ps.value else [])
      ensures ps.Some? ==> participants == ps
      ensures name == old(name) && description == old(description)
    {
      participants := if ps.Some? then ps else Some([]);
    }

    /** `getParticipants`: the stored list, or an empty one in place of null. */
    function GetParticipants(): (ps: seq<MemberRequest>)
      reads this
      ensures participants.Some? ==> ps == participants.value
      ensures participants.None? ==> ps == []
    {
      if participants.Some? then participants.value else []
    }

    /** `getMembers`: an alias of `getParticipants`. */
    function GetMembers(): (ms: seq<MemberRequest>)
      reads this
      ensures ms == GetParticipants()
    {
      if participants.Some? then participants.value else []
    }

    /** `setName` */
    method SetName(n: Option<string>)
      modifies this
      ensures name == n && description == old(description) && participants == old(participants)
    {
      name := n;
    }

    /** `setDescription` */
    method SetDescription(d: Option<string>)
      modifies this
      ensures description == d && name == old(name) && participants == old(participants)
    {
      description := d;
    }
  }
}
