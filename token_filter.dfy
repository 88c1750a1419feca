/**
 * The bearer-token gate run once per request (FirebaseTokenFilter.doFilterInternal):
 * header and prefix checks, verification by the identity provider, just-in-time
 * resolution of the verified subject to a local user, and the failure statuses.
 */
module TokenFilter {
  import opened Wrappers
  import opened Text
  import opened Entities
  import opened Users

  const BEARER_PREFIX: string := "Bearer "
  const JWT_PREFIX: string := "eyJ"
  const PLACEHOLDER_EMAIL: string := "unknown@example.com"

  const SC_UNAUTHORIZED: int := 401
  const SC_FORBIDDEN: int := 403

  const EXPIRED_CODE: string := "auth/id-token-expired"
  const REVOKED_CODE: string := "auth/id-token-revoked"
  const INVALID_CODE: string := "auth/invalid-id-token"

  /** What the identity provider answers for a token: its claims, or an error code and message. */
  datatype Verification =
    | Verified(uid: string, email: Option<string>, name: Option<string>)
    | Rejected(code: Option<string>, message: string)

  /** What the Authorization header carries. */
  datatype Credential = NoCredential | BadFormat | IdToken(token: string)

  /** The status and error text written to the response when the filter stops the request. */
  datatype Rejection = Rejection(status: int, error: string)

  /** The filter either passes the request on down the chain, authenticated or not, or stops it. */
  datatype Outcome = Continue(principal: Option<User>) | Halt(rejection: Rejection)

  const BAD_FORMAT: Rejection := Rejection(SC_FORBIDDEN, "Invalid token format. Expected Firebase ID Token.")

  /** The header and token-prefix checks; the token is the header without "Bearer ". */
  function ReadCredential(header: Option<string>): (c: Credential)
    ensures c.NoCredential? <==> header.None? || !StartsWith(header.value, BEARER_PREFIX)
    ensures c.IdToken? ==> header == Some(BEARER_PREFIX + c.token) && StartsWith(c.token, JWT_PREFIX)
    ensures c.BadFormat? ==> header.Some? && StartsWith(header.value, BEARER_PREFIX)
                              && !StartsWith(header.value[|BEARER_PREFIX|..], JWT_PREFIX)
  {
    if header.None? || !StartsWith(header.value, BEARER_PREFIX) then NoCredential
    else
      var token := header.value[|BEARER_PREFIX|..];
      assert header.value == header.value[..|BEARER_PREFIX|] + token;
      if StartsWith(token, JWT_PREFIX) then IdToken(token) else BadFormat
  }

  /** Reading a header built from a token gives that token back, or rejects it for its format. */
  lemma BearerRoundTrip(token: string)
    ensures ReadCredential(Some(BEARER_PREFIX + token))
            == if StartsWith(token, JWT_PREFIX) then IdToken(token) else BadFormat
  {
    assert (BEARER_PREFIX + token)[..|BEARER_PREFIX|] == BEARER_PREFIX;
    assert (BEARER_PREFIX + token)[|BEARER_PREFIX|..] == token;
  }

  /** The status and message for a failed verification, chosen by the provider's error code. */
  function ClassifyFailure(code: Option<string>, message: string): (r: Rejection)
    ensures r.status == SC_UNAUTHORIZED <==> code == Some(EXPIRED_CODE) || code == Some(REVOKED_CODE)
    ensures r.status != SC_UNAUTHORIZED ==> r.status == SC_FORBIDDEN
    ensures code.None? ==> r.error == "Authentication failed"
    ensures code == Some(EXPIRED_CODE) ==> r == Rejection(SC_UNAUTHORIZED, "Token expired. Please login again.")
    ensures code == Some(REVOKED_CODE) ==> r == Rejection(SC_UNAUTHORIZED, "Token revoked. Please login again.")
    ensures code == Some(INVALID_CODE) ==> r.error == "Invalid token format."
    ensures code.Some? && code.value !in {EXPIRED_CODE, REVOKED_CODE, INVALID_CODE}
            ==> r.error == "Authentication failed: " + message
  {
    if code.None? then Rejection(SC_FORBIDDEN, "Authentication failed")
    else if code.value == EXPIRED_CODE then Rejection(SC_UNAUTHORIZED, "Token expired. Please login again.")
    else if code.value == REVOKED_CODE then Rejection(SC_UNAUTHORIZED, "Token revoked. Please login again.")
    else if code.value == INVALID_CODE then Rejection(SC_FORBIDDEN, "Invalid token format.")
    else Rejection(SC_FORBIDDEN, "Authentication failed: " + message)
  }

  /** The user a resolution returns, the store it leaves, and the users it saved. */
  datatype Resolution = Resolution(user: User, users: seq<User>, writes: seq<User>)

  /** An account found by email gets the subject bound and, given a non-empty name, that name. */
  function Rebind(u: User, uid: string, name: Option<string>): (r: User)
    ensures r.id == u.id && r.email == u.email && r.firebaseUid == Some(uid)
    ensures name.Some? && |name.value| > 0 ==> r.displayName == name
    ensures name.None? || |name.value| == 0 ==> r.displayName == u.displayName
  {
    u.(firebaseUid := Some(uid),
       displayName := if name.Some? && |name.value| > 0 then name else u.displayName)
  }

  /** Just-in-time resolution of verified claims: by subject id, then by email, else a new user. */
  function Resolve(users: seq<User>, uid: string, email: Option<string>, name: Option<string>): (r: Resolution)
    ensures r.user.firebaseUid == Some(uid)
    ensures |r.writes| <= 1 && |users| <= |r.users| <= |users| + 1
    ensures r.writes == [] ==> r.users == users
    ensures r.writes != [] ==> r.writes == [r.user]
  {
    match FindByFirebaseUid(users, uid)
    case Some(i) => Resolution(users[i], users, [])
    case None =>
      if email.Some? then
        match FindByEmail(users, email.value)
        case Some(i) =>
          var bound := Rebind(users[i], uid, name);
          Resolution(bound, users[i := bound], [bound])
        case None =>
          var created := User(|users|, email.value, name, Some(uid));
          Resolution(created, users + [created], [created])
      else
        var created := User(|users|, PLACEHOLDER_EMAIL, name, Some(uid));
        Resolution(created, users + [created], [created])
  }

  /** A subject already bound to a user resolves to that user without any write. */
  lemma ResolveKnownSubject(users: seq<User>, uid: string, email: Option<string>, name: Option<string>)
    requires FindByFirebaseUid(users, uid).Some?
    ensures var r := Resolve(users, uid, email, name);
            r.writes == [] && r.users == users && r.user == users[FindByFirebaseUid(users, uid).value]
  {
  }

  /**
   * An unknown subject whose email matches a user is bound to that user (overwriting any subject
   * it had), which alone is saved; its name changes only for a non-empty claimed name.
   */
  lemma ResolveByEmail(users: seq<User>, uid: string, email: string, name: Option<string>)
    requires IdsArePositions(users)
    requires FindByFirebaseUid(users, uid).None? && FindByEmail(users, email).Some?
    ensures var i := FindByEmail(users, email).value;
            var r := Resolve(users, uid, Some(email), name);
            && r.user.id == i && r.user.email == users[i].email == email
            && r.user.firebaseUid == Some(uid)
            && r.user.displayName == (if name.Some? && name.value != "" then name else users[i].displayName)
            && r.users == users[i := r.user] && r.writes == [r.user]
  {
  }

  /** Otherwise exactly one user is created, with the claimed email or the placeholder. */
  lemma ResolveCreates(users: seq<User>, uid: string, email: Option<string>, name: Option<string>)
    requires FindByFirebaseUid(users, uid).None?
    requires email.None? || FindByEmail(users, email.value).None?
    ensures var r := Resolve(users, uid, email, name);
            && r.users == users + [r.user] && r.writes == [r.user]
            && r.user == User(|users|, email.GetOr(PLACEHOLDER_EMAIL), name, Some(uid))
  {
  }

  /** Resolution leaves every other user as it was and keeps ids equal to positions. */
  lemma {:induction false} ResolveFrame(users: seq<User>, uid: string, email: Option<string>, name: Option<string>)
    requires IdsArePositions(users)
    ensures var r := Resolve(users, uid, email, name);
            && IdsArePositions(r.users) && r.user.id < |r.users| && r.users[r.user.id] == r.user
            && forall j :: 0 <= j < |users| && j != r.user.id ==> r.users[j] == users[j]
  {
  }

  /** After any resolution the subject is found by id at the returned user. */
  lemma {:induction false} ResolveBindsSubject(users: seq<User>, uid: string, email: Option<string>, name: Option<string>)
    requires IdsArePositions(users)
    ensures var r := Resolve(users, uid, email, name);
            FindByFirebaseUid(r.users, uid) == Some(r.user.id)
  {
    var r := Resolve(users, uid, email, name);
    ResolveFrame(users, uid, email, name);
    var found := FindByFirebaseUid(r.users, uid);
    if FindByFirebaseUid(users, uid).None? {
      // no earlier row can hold the subject: every row other than the resolved one is unchanged
      assert forall j :: 0 <= j < r.user.id ==> r.users[j] == users[j];
      assert r.users[r.user.id].firebaseUid == Some(uid);
    }
    assert found.Some?;
  }

  /** A second request with the same subject, whatever its other claims, is the fast path. */
  lemma ResolveIdempotent(users: seq<User>, uid: string, email: Option<string>, name: Option<string>,
                          email2: Option<string>, name2: Option<string>)
    requires IdsArePositions(users)
    ensures var r := Resolve(users, uid, email, name);
            Resolve(r.users, uid, email2, name2) == Resolution(r.user, r.users, [])
  {
    ResolveFrame(users, uid, email, name);
    ResolveBindsSubject(users, uid, email, name);
  }

  /** Resolution never gives two users the same subject id. */
  lemma ResolvePreservesUidsUnique(users: seq<User>, uid: string, email: Option<string>, name: Option<string>)
    requires IdsArePositions(users) && UidsUnique(users)
    ensures UidsUnique(Resolve(users, uid, email, name).users)
  {
    var r := Resolve(users, uid, email, name);
    ResolveFrame(users, uid, email, name);
    if FindByFirebaseUid(users, uid).None? {
      assert forall j :: 0 <= j < |users| ==> users[j].firebaseUid != Some(uid);
    }
  }

  /** Two first sign-ins without an email create two users sharing the placeholder email. */
  lemma PlaceholderEmailShared(users: seq<User>, uid1: string, uid2: string, name1: Option<string>, name2: Option<string>)
    requires IdsArePositions(users) && uid1 != uid2
    requires FindByFirebaseUid(users, uid1).None? && FindByFirebaseUid(users, uid2).None?
    ensures var r1 := Resolve(users, uid1, None, name1);
            var r2 := Resolve(r1.users, uid2, None, name2);
            && |r2.users| == |users| + 2
            && r2.users[|users|].email == r2.users[|users| + 1].email == PLACEHOLDER_EMAIL
  {
    var r1 := Resolve(users, uid1, None, name1);
    assert r1.users == users + [r1.user];
    assert forall j :: 0 <= j < |r1.users| ==> r1.users[j].firebaseUid != Some(uid2);
  }

  /** The resolution step against the user store; the store saves exactly `Resolve`'s writes. */
  method ResolveUser(repo: UserRepository, uid: string, email: Option<string>, name: Option<string>) returns (user: User)
    requires repo.Valid()
    modifies repo
    ensures repo.Valid()
    ensures var r := Resolve(old(repo.users), uid, email, name);
            user == r.user && repo.users == r.users && repo.saved == old(repo.saved) + r.writes
  {
    ResolvePreservesUidsUnique(repo.users, uid, email, name);
    var byUid := FindByFirebaseUid(repo.users, uid);
    if byUid.Some? {
      return repo.users[byUid.value];
    }
    if email.Some? {
      var byEmail := FindByEmail(repo.users, email.value);
      if byEmail.Some? {
        var existing := repo.users[byEmail.value];
        existing := existing.(firebaseUid := Some(uid));
        if name.Some? && |name.value| > 0 {
          existing := existing.(displayName := name);
        }
        repo.Update(existing);
        user := existing;
      } else {
        user := repo.Insert(email.value, name, Some(uid));
      }
    } else {
      user := repo.Insert(PLACEHOLDER_EMAIL, name, Some(uid));
    }
  }

  /**
   * One pass of the filter. `verify` is the identity provider; `verifiedToken` is the token it was
   * asked about, if any. Only a missing credential or a verified token continue down the chain.
   */
  method DoFilterInternal(header: Option<string>, verify: string -> Verification, repo: UserRepository)
    returns (outcome: Outcome, verifiedToken: Option<string>)
    requires repo.Valid()
    modifies repo
    ensures repo.Valid()
    ensures outcome.Continue? <==> ReadCredential(header).NoCredential?
                                   || (ReadCredential(header).IdToken? && verify(ReadCredential(header).token).Verified?)
    ensures verifiedToken.Some? <==> ReadCredential(header).IdToken?
    ensures verifiedToken.Some? ==> verifiedToken.value == ReadCredential(header).token
    ensures match ReadCredential(header)
      case NoCredential => outcome == Continue(None) && unchanged(repo)
      case BadFormat => outcome == Halt(BAD_FORMAT) && unchanged(repo)
      case IdToken(token) =>
        match verify(token)
        case Rejected(code, message) => outcome == Halt(ClassifyFailure(code, message)) && unchanged(repo)
        case Verified(uid, email, name) =>
          var r := Resolve(old(repo.users), uid, email, name);
          outcome == Continue(Some(r.user)) && repo.users == r.users && repo.saved == old(repo.saved) + r.writes
  {
    verifiedToken := None;
    if header.Some? && StartsWith(header.value, BEARER_PREFIX) {
      var token := header.value[|BEARER_PREFIX|..];
      if !StartsWith(token, JWT_PREFIX) {
        return Halt(BAD_FORMAT), None;
      }
      verifiedToken := Some(token);
      var decoded := verify(token);
      if decoded.Rejected? {
        return Halt(ClassifyFailure(decoded.code, decoded.message)), verifiedToken;
      }
      var user := ResolveUser(repo, decoded.uid, decoded.email, decoded.name);
      return Continue(Some(user)), verifiedToken;
    }
    outcome := Continue(None);
  }
}
