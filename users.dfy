/** The user store (UserRepository): users in insertion order, a user's id being its position. */
module Users {
  import opened Wrappers
  import opened Entities

  /** The store assigns ids on insertion: the user at position i has id i. */
  ghost predicate IdsArePositions(users: seq<User>) {
    forall i :: 0 <= i < |users| ==> users[i].id == i
  }

  /** At most one user per identity-provider subject id. */
  ghost predicate UidsUnique(users: seq<User>) {
    forall i, j :: 0 <= i < j < |users| && users[i].firebaseUid.Some? ==> users[i].firebaseUid != users[j].firebaseUid
  }

  /** `findByFirebaseUid` */
  function FindByFirebaseUid(users: seq<User>, uid: string): (r: Option<nat>)
    ensures r.Some? ==> r.value < |users| && users[r.value].firebaseUid == Some(uid)
    ensures r.None? <==> forall j :: 0 <= j < |users| ==> users[j].firebaseUid != Some(uid)
    ensures UidsUnique(users) ==> forall j :: 0 <= j < |users| && users[j].firebaseUid == Some(uid) ==> r == Some(j)
  {
    FirstIndex(users, (u: User) => u.firebaseUid == Some(uid))
  }

  /** `findByEmail` */
  function FindByEmail(users: seq<User>, email: string): (r: Option<nat>)
    ensures r.Some? ==> r.value < |users| && users[r.value].email == email
    ensures r.Some? ==> forall j :: 0 <= j < r.value ==> users[j].email != email
    ensures r.None? <==> forall j :: 0 <= j < |users| ==> users[j].email != email
  {
    FirstIndex(users, (u: User) => u.email == email)
  }

  /** `findById` */
  function FindById(users: seq<User>, id: Id): (r: Option<User>)
    ensures r.Some? <==> id < |users|
    ensures r.Some? ==> r.value == users[id]
    ensures IdsArePositions(users) && r.Some? ==> r.value.id == id
  {
    if id < |users| then Some(users[id]) else None
  }

  class UserRepository {
    var users: seq<User>
    /** Every user passed to `save`, in order: the store's write log. */
    var saved: seq<User>

    ghost predicate Valid()
      reads this
    {
      IdsArePositions(users) && UidsUnique(users)
    }

    constructor ()
      ensures Valid() && users == [] && saved == []
    {
      users := [];
      saved := [];
    }

    /** `save` of a new user: the store assigns the next id. */
    method Insert(email: string, displayName: Option<string>, firebaseUid: Option<string>) returns (u: User)
      requires IdsArePositions(users)
      modifies this
      ensures u == User(|old(users)|, email, displayName, firebaseUid)
      ensures users == old(users) + [u] && saved == old(saved) + [u]
      ensures IdsArePositions(users)
    {
      u := User(|users|, email, displayName, firebaseUid);
      users := users + [u];
      saved := saved + [u];
    }

    /** `save` of an existing user: the row with the same id is replaced. */
    method Update(u: User)
      requires IdsArePositions(users) && u.id < |users|
      modifies this
      ensures users == old(users)[u.id := u] && saved == old(saved) + [u]
      ensures IdsArePositions(users)
    {
      users := users[u.id := u];
      saved := saved + [u];
    }
  }
}
