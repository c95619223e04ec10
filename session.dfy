/**
 * The client's authentication context: the signed-in user and role read
 * from the stored token, the user's own adoption requests, the queries the
 * pet pages ask about them, and the role flags.
 */
module Session {
  import opened Common
  import opened Status
  import opened Dto

  /** The token payload fields the client reads (`sub`, `roles`, `role`). */
  datatype Claims = Claims(sub: Option<string>, roles: Option<string>, role: Option<string>)

  /** The `user` object: the raw token and the e-mail from its `sub` claim. */
  datatype SessionUser = SessionUser(token: string, email: Option<string>)

  /** The statuses that no longer block a new request for the same pet. */
  predicate IsClosedStatus(s: RequestStatus)
  {
    RequestStatusName(s) in {"COMPLETED", "REJECTED", "CANCELLED"}
  }

  /** `hasPendingRequestForPet`: some request for the pet is not closed. */
  predicate HasPendingRequestForPet(rs: seq<RequestDto>, petId: nat)
  {
    exists i :: 0 <= i < |rs| && rs[i].petId == petId && !IsClosedStatus(rs[i].status)
  }

  /** `hasCompletedRequestForPet`: some request for the pet is COMPLETED. */
  predicate HasCompletedRequestForPet(rs: seq<RequestDto>, petId: nat)
  {
    exists i :: 0 <= i < |rs| && rs[i].petId == petId && RequestStatusName(rs[i].status) == "COMPLETED"
  }

  /** `getRequestForPet`: the first of the user's requests for the pet, whatever its status. */
  function GetRequestForPet(rs: seq<RequestDto>, petId: nat): (r: Option<RequestDto>)
    ensures r.None? <==> forall i :: 0 <= i < |rs| ==> rs[i].petId != petId
    ensures r.Some? ==> exists k :: FirstForPet(rs, petId, k) && rs[k] == r.value
  {
    match FindFirst(rs, (q: RequestDto) => q.petId == petId)
    case None => None
    case Some(k) => assert FirstForPet(rs, petId, k); Some(rs[k])
  }

  /** `k` is the position of the first request for the pet. */
  predicate FirstForPet(rs: seq<RequestDto>, petId: nat, k: int)
  {
    0 <= k < |rs| && rs[k].petId == petId && forall j :: 0 <= j < k ==> rs[j].petId != petId
  }

  /**
   * A pet with an open or a completed request has a first request; a
   * completed request is not an open one, so the two queries are separate
   * facts about the list.
   */
  lemma RequestQueriesAgree(rs: seq<RequestDto>, petId: nat)
    ensures HasPendingRequestForPet(rs, petId) ==> GetRequestForPet(rs, petId).Some?
    ensures HasCompletedRequestForPet(rs, petId) ==> GetRequestForPet(rs, petId).Some?
    ensures GetRequestForPet(rs, petId).None? ==>
      !HasPendingRequestForPet(rs, petId) && !HasCompletedRequestForPet(rs, petId)
  {
  }

  /**
   * When the pet's only request is the first one, the queries read its
   * status: open means pending, COMPLETED means completed.
   */
  lemma SingleRequestQueries(rs: seq<RequestDto>, r: RequestDto)
    requires forall i :: 0 <= i < |rs| ==> rs[i].petId != r.petId
    ensures GetRequestForPet(rs + [r], r.petId) == Some(r)
    ensures HasPendingRequestForPet(rs + [r], r.petId) <==> !IsClosedStatus(r.status)
    ensures HasCompletedRequestForPet(rs + [r], r.petId) <==> RequestStatusName(r.status) == "COMPLETED"
  {
    var s := rs + [r];
    assert s[|rs|] == r;
    assert FirstForPet(s, r.petId, |rs|);
  }

  /** `updateUserRequest`: the request with the same id is replaced by the new one. */
  function ReplaceById(rs: seq<RequestDto>, updated: RequestDto): (r: seq<RequestDto>)
    ensures |r| == |rs|
    ensures forall i :: 0 <= i < |rs| ==> r[i] == if rs[i].id == updated.id then updated else rs[i]
  {
    seq(|rs|, i requires 0 <= i < |rs| => if rs[i].id == updated.id then updated else rs[i])
  }

  /**
   * Replacing keeps the ids in place, and afterwards every request with
   * that id is the new one: replacing again changes nothing.
   */
  lemma ReplaceByIdProperties(rs: seq<RequestDto>, updated: RequestDto)
    ensures forall i :: 0 <= i < |rs| ==> ReplaceById(rs, updated)[i].id == rs[i].id
    ensures ReplaceById(ReplaceById(rs, updated), updated) == ReplaceById(rs, updated)
    ensures (forall i :: 0 <= i < |rs| ==> rs[i].id != updated.id) ==> ReplaceById(rs, updated) == rs
  {
  }

  /** A JavaScript string is truthy when it is not empty. */
  predicate Truthy(s: Option<string>)
  {
    s.Some? && s.value != ""
  }

  /** `isAuthenticated: !!user`. */
  predicate IsAuthenticated(user: Option<SessionUser>)
  {
    user.Some?
  }

  /** `isAdmin`, `isShelter`, `isUser`: exact comparison of the role claim. */
  predicate IsAdmin(userRole: Option<string>) { userRole == Some("ROLE_ADMIN") }

  predicate IsShelter(userRole: Option<string>) { userRole == Some("ROLE_SHELTER") }

  predicate IsUser(userRole: Option<string>) { userRole == Some("ROLE_USER") }

  /** At most one of the three role flags holds. */
  lemma RoleFlagsExclusive(userRole: Option<string>)
    ensures !(IsAdmin(userRole) && IsShelter(userRole))
    ensures !(IsAdmin(userRole) && IsUser(userRole))
    ensures !(IsShelter(userRole) && IsUser(userRole))
  {
  }

  /**
   * The context's state. `decode` is `decodeToken`: the parsed payload, or
   * nothing when the token is malformed. The browser's stored token is a
   * field; the fetched request list arrives as a method argument, absent
   * when the fetch fails.
   */
  class AuthContext {
    const decode: string -> Option<Claims>
    var storedToken: Option<string>
    var user: Option<SessionUser>
    var userRole: Option<string>
    var userRequests: seq<RequestDto>

    /**
     * The mount effect: a stored, non-empty token is decoded as at login
     * and the user's requests are fetched; otherwise nobody is signed in.
     */
    constructor (decode: string -> Option<Claims>, stored: Option<string>, fetched: Option<seq<RequestDto>>)
      ensures this.decode == decode && storedToken == stored
      ensures Truthy(stored) && decode(stored.value).Some? ==>
        user == Some(SessionUser(stored.value, decode(stored.value).value.sub))
        && userRole == decode(stored.value).value.roles
      ensures !(Truthy(stored) && decode(stored.value).Some?) ==> user.None? && userRole.None?
      ensures userRequests == if Truthy(stored) && fetched.Some? then fetched.value else []
    {
      this.decode := decode;
      storedToken := stored;
      user, userRole, userRequests := None, None, [];
      new;
      if Truthy(stored) {
        DecodeTokenAndSetUser(stored.value);
        if fetched.Some? {
          userRequests := fetched.value;
        }
      }
    }

    /** `decodeTokenAndSetUser`: a malformed token leaves user and role as they were. */
    method DecodeTokenAndSetUser(token: string)
      modifies this`user, this`userRole
      ensures decode(token).Some? ==>
        user == Some(SessionUser(token, decode(token).value.sub)) && userRole == decode(token).value.roles
      ensures decode(token).None? ==> user == old(user) && userRole == old(userRole)
    {
      var decoded := decode(token);
      if decoded.Some? {
        user := Some(SessionUser(token, decoded.value.sub));
        userRole := decoded.value.roles;
      }
    }

    /** `login(token)`: store, decode, then fetch the user's requests. */
    method Login(token: string, fetched: Option<seq<RequestDto>>)
      modifies this
      ensures storedToken == Some(token)
      ensures decode(token).Some? ==>
        user == Some(SessionUser(token, decode(token).value.sub)) && userRole == decode(token).value.roles
      ensures decode(token).None? ==> user == old(user) && userRole == old(userRole)
      ensures userRequests == if fetched.Some? then fetched.value else old(userRequests)
    {
      storedToken := Some(token);
      DecodeTokenAndSetUser(token);
      if fetched.Some? {
        userRequests := fetched.value;
      }
    }

    /** `logout`: everything about the session is cleared. */
    method Logout()
      modifies this
      ensures storedToken.None? && user.None? && userRole.None? && userRequests == []
      ensures !IsAuthenticated(user) && !IsAdmin(userRole) && !IsShelter(userRole) && !IsUser(userRole)
      ensures forall petId :: !HasPendingRequestForPet(userRequests, petId)
    {
      storedToken, user, userRole, userRequests := None, None, None, [];
    }

    /** `refreshUserRequests`: a failed fetch keeps the list. */
    method RefreshUserRequests(fetched: Option<seq<RequestDto>>)
      modifies this`userRequests
      ensures userRequests == if fetched.Some? then fetched.value else old(userRequests)
    {
      if fetched.Some? {
        userRequests := fetched.value;
      }
    }

    /**
     * `addUserRequest`: the request is appended; an open request now
     * blocks further requests for its pet.
     */
    method AddUserRequest(r: RequestDto)
      modifies this`userRequests
      ensures userRequests == old(userRequests) + [r]
      ensures !IsClosedStatus(r.status) ==> HasPendingRequestForPet(userRequests, r.petId)
      ensures forall petId :: HasPendingRequestForPet(old(userRequests), petId) ==>
        HasPendingRequestForPet(userRequests, petId)
    {
      var before := userRequests;
      userRequests := userRequests + [r];
      assert userRequests[|before|] == r;
      forall petId | HasPendingRequestForPet(before, petId)
        ensures HasPendingRequestForPet(userRequests, petId)
      {
        var i :| 0 <= i < |before| && before[i].petId == petId && !IsClosedStatus(before[i].status);
        assert userRequests[i] == before[i];
      }
    }

    /** `updateUserRequest`. */
    method UpdateUserRequest(updated: RequestDto)
      modifies this`userRequests
      ensures userRequests == ReplaceById(old(userRequests), updated)
    {
      userRequests := ReplaceById(userRequests, updated);
    }
  }
}
