/**
 * The pet list page: which role the page believes the visitor has, who
 * sees the edit/delete buttons, what the adopt button shows for each pet,
 * and the local list updates after a delete or an adoption request.
 */
module PetsPage {
  import opened Common
  import opened Status
  import opened Dto
  import opened Session

  /**
   * `getUserRole`. The context's user object carries only the token and the
   * e-mail, so `user.role` and `user.userRole` are never set and the first
   * and third tests never succeed; what is left is the context's role, then
   * the stored token's `roles` claim, then its `role` claim. Each test uses
   * JavaScript truthiness, so an empty text falls through.
   */
  function CurrentUserRole(userRole: Option<string>, storedToken: Option<string>,
                           decode: string -> Option<Claims>): (r: Option<string>)
    ensures Truthy(userRole) ==> r == userRole
    ensures r.None? || r.value != ""
  {
    if Truthy(userRole) then userRole
    else if Truthy(storedToken) && decode(storedToken.value).Some? then
      var claims := decode(storedToken.value).value;
      if Truthy(claims.roles) then claims.roles
      else if Truthy(claims.role) then claims.role
      else None
    else None
  }

  /**
   * For a context filled from a decodable stored token, the fallback chain
   * comes down to the token's claims: `roles` when it is non-empty,
   * otherwise `role`, otherwise no role.
   */
  lemma CurrentUserRoleOfSession(token: string, decode: string -> Option<Claims>)
    requires token != "" && decode(token).Some?
    ensures var c := decode(token).value;
      CurrentUserRole(c.roles, Some(token), decode) ==
        if Truthy(c.roles) then c.roles else if Truthy(c.role) then c.role else None
    ensures var r := CurrentUserRole(decode(token).value.roles, Some(token), decode);
      r.None? || r.value != ""
  {
  }

  /** The page's role flags: a substring test, plus two exact comparisons it already covers. */
  predicate PageIsAdmin(r: Option<string>)
  {
    r.Some? && (Includes(r.value, "ADMIN") || r.value == "ADMIN" || r.value == "ROLE_ADMIN")
  }

  predicate PageIsShelter(r: Option<string>)
  {
    r.Some? && (Includes(r.value, "SHELTER") || r.value == "SHELTER" || r.value == "ROLE_SHELTER")
  }

  predicate PageIsUser(r: Option<string>)
  {
    r.Some? && (Includes(r.value, "USER") || r.value == "USER" || r.value == "ROLE_USER")
  }

  /** The exact comparisons add nothing to the substring test. */
  lemma PageFlagsAreSubstringTests(r: Option<string>)
    ensures PageIsAdmin(r) <==> r.Some? && Includes(r.value, "ADMIN")
    ensures PageIsShelter(r) <==> r.Some? && Includes(r.value, "SHELTER")
    ensures PageIsUser(r) <==> r.Some? && Includes(r.value, "USER")
  {
    IncludesEmptyAndSelf("ADMIN");
    IncludesEmptyAndSelf("SHELTER");
    IncludesEmptyAndSelf("USER");
    IncludesSuffix("ROLE_", "ADMIN");
    IncludesSuffix("ROLE_", "SHELTER");
    IncludesSuffix("ROLE_", "USER");
    assert "ROLE_" + "ADMIN" == "ROLE_ADMIN";
    assert "ROLE_" + "SHELTER" == "ROLE_SHELTER";
    assert "ROLE_" + "USER" == "ROLE_USER";
  }

  /**
   * For the three role names the server issues, the page's flags are the
   * context's exact flags, so exactly one of them holds.
   */
  lemma PageFlagsAgreeOnIssuedRoles(name: string)
    requires name in {"ROLE_ADMIN", "ROLE_SHELTER", "ROLE_USER"}
    ensures PageIsAdmin(Some(name)) == IsAdmin(Some(name))
    ensures PageIsShelter(Some(name)) == IsShelter(Some(name))
    ensures PageIsUser(Some(name)) == IsUser(Some(name))
  {
    if name == "ROLE_ADMIN" {
      FlagsOfAdmin(name);
    } else if name == "ROLE_SHELTER" {
      FlagsOfShelter(name);
    } else {
      FlagsOfUser(name);
    }
  }

  lemma FlagsOfAdmin(name: string)
    requires name == "ROLE_ADMIN"
    ensures PageIsAdmin(Some(name)) && !PageIsShelter(Some(name)) && !PageIsUser(Some(name))
  {
    LacksChar(name, "SHELTER", 'S');
    LacksChar(name, "USER", 'U');
  }

  lemma FlagsOfShelter(name: string)
    requires name == "ROLE_SHELTER"
    ensures !PageIsAdmin(Some(name)) && PageIsShelter(Some(name)) && !PageIsUser(Some(name))
  {
    LacksChar(name, "ADMIN", 'A');
    LacksChar(name, "USER", 'U');
  }

  lemma FlagsOfUser(name: string)
    requires name == "ROLE_USER"
    ensures !PageIsAdmin(Some(name)) && !PageIsShelter(Some(name)) && PageIsUser(Some(name))
  {
    LacksChar(name, "ADMIN", 'A');
    LacksChar(name, "SHELTER", 'H');
  }

  /** A text lacking one of `sub`'s characters does not include `sub`. */
  lemma LacksChar(s: string, sub: string, c: char)
    requires c in sub && c !in s
    ensures !Includes(s, sub)
  {
    IncludesChars(s, sub);
  }

  /** Unlike the context's flags, the page's flags can hold together. */
  lemma PageFlagsOverlap()
    ensures PageIsAdmin(Some("ROLE_ADMIN_USER")) && PageIsUser(Some("ROLE_ADMIN_USER"))
    ensures !IsAdmin(Some("ROLE_ADMIN_USER")) && !IsUser(Some("ROLE_ADMIN_USER"))
  {
    var text := "ROLE_ADMIN_USER";
    assert text == "ROLE_" + "ADMIN" + "_USER";
    IncludesInfix("ROLE_", "ADMIN", "_USER");
    assert text == "ROLE_ADMIN_" + "USER";
    IncludesSuffix("ROLE_ADMIN_", "USER");
    assert |text| != |"ROLE_ADMIN"| && |text| != |"ROLE_USER"|;
  }

  /**
   * `canEditDelete` as written: it compares the pet's shelter with
   * `user?.id`, and the context's user object has no id, so the comparison
   * never succeeds.
   */
  predicate CanEditDeleteAsWritten(pageIsAdmin: bool, pageIsShelter: bool, user: Option<SessionUser>, pet: PetDto)
  {
    pageIsAdmin || (pageIsShelter && SessionUserId(user).Some? && pet.shelterId == SessionUserId(user).value)
  }

  /** `user?.id`: the context's user object carries no id. */
  function SessionUserId(user: Option<SessionUser>): Option<nat>
  {
    None
  }

  /** A shelter that is not also flagged admin never gets the buttons, not even on its own pets. */
  lemma ShelterNeverEditsAsWritten(user: Option<SessionUser>, pet: PetDto)
    ensures !CanEditDeleteAsWritten(false, true, user, pet)
  {
  }

  /** `canEditDelete` as intended: a shelter manages the pets it owns, identified by its account id. */
  predicate CanEditDelete(pageIsAdmin: bool, pageIsShelter: bool, accountId: Option<nat>, pet: PetDto)
  {
    pageIsAdmin || (pageIsShelter && accountId == Some(pet.shelterId))
  }

  /**
   * With the account id known, a shelter sees the buttons on exactly its own
   * pets, and the as-written rule agrees with the intended one for every
   * admin.
   */
  lemma CanEditDeleteOwnPets(accountId: nat, user: Option<SessionUser>, pet: PetDto)
    ensures CanEditDelete(false, true, Some(accountId), pet) <==> pet.shelterId == accountId
    ensures CanEditDelete(true, false, Some(accountId), pet) == CanEditDeleteAsWritten(true, false, user, pet)
  {
  }

  /** What the page shows in a pet's action area for adopting. */
  datatype ButtonState =
    | NoButton                                           // `null`: not a signed-in user
    | Unavailable(reason: string)                        // pet not AVAILABLE
    | AdoptButton(isCompletedAdoption: bool)             // "Adopt Me" / "Adopt Again"
    | RequestInfo(reason: string, requestStatus: RequestStatus, requestId: nat)

  /** The button is shown. */
  predicate Shown(b: ButtonState)
  {
    b.AdoptButton?
  }

  /** The button's caption. */
  function AdoptCaption(b: ButtonState): string
    requires b.AdoptButton?
  {
    if b.isCompletedAdoption then "Adopt Again" else "Adopt Me"
  }

  /**
   * `getAdoptionButtonState` as written: when some request for the pet is
   * open it looks at the FIRST request for the pet, whatever its status,
   * and shows the button if that one is COMPLETED. So "Adopt Again" only
   * ever appears while a request for the pet is open, and the request it
   * reports may be a closed one.
   */
  function AdoptionButtonStateAsWritten(isAuthenticated: bool, pageIsUser: bool, pet: PetDto,
                                        rs: seq<RequestDto>): (b: ButtonState)
    ensures b.NoButton? <==> !isAuthenticated || !pageIsUser
    ensures b.Unavailable? <==> isAuthenticated && pageIsUser && pet.status != AVAILABLE
    ensures Shown(b) ==> isAuthenticated && pageIsUser && pet.status == AVAILABLE
    ensures b.AdoptButton? && b.isCompletedAdoption ==> HasPendingRequestForPet(rs, pet.id)
    ensures isAuthenticated && pageIsUser && pet.status == AVAILABLE && HasPendingRequestForPet(rs, pet.id) ==>
      && GetRequestForPet(rs, pet.id).Some?
      && (Shown(b) <==> RequestStatusName(GetRequestForPet(rs, pet.id).value.status) == "COMPLETED")
      && (b.RequestInfo? ==> b.requestId == GetRequestForPet(rs, pet.id).value.id
                              && b.requestStatus == GetRequestForPet(rs, pet.id).value.status)
    ensures b.RequestInfo? ==>
      exists q :: q in rs && q.petId == pet.id && q.status == b.requestStatus && q.id == b.requestId
  {
    RequestQueriesAgree(rs, pet.id);
    if !isAuthenticated || !pageIsUser then NoButton
    else if pet.status != AVAILABLE then Unavailable("This pet is " + Lower(pet.status))
    else if HasPendingRequestForPet(rs, pet.id) then
      var request := GetRequestForPet(rs, pet.id).value;
      if RequestStatusName(request.status) == "COMPLETED" then AdoptButton(true)
      else RequestInfo("Request " + Lower(RequestStatusName(request.status)), request.status, request.id)
    else AdoptButton(false)
  }

  /**
   * The discrepancy: a user whose first request for a pet was completed and
   * who has a new pending request for it is offered the button again, so
   * the page invites another duplicate request.
   */
  lemma ButtonShownDespiteOpenRequest()
    ensures var pet := PetDto(5, "Rex", "Dog", 3, "Mixed", "", AVAILABLE, None, 2);
      var rs := [RequestDto(1, 9, 5, RequestStatus.Completed, None), RequestDto(2, 9, 5, RequestStatus.Pending, None)];
      && HasPendingRequestForPet(rs, pet.id)
      && AdoptionButtonStateAsWritten(true, true, pet, rs) == AdoptButton(true)
  {
    var rs := [RequestDto(1, 9, 5, RequestStatus.Completed, None), RequestDto(2, 9, 5, RequestStatus.Pending, None)];
    assert rs[1].petId == 5 && !IsClosedStatus(rs[1].status);
    assert FirstForPet(rs, 5, 0);
  }

  /** The first open request for the pet, if any. */
  function OpenRequestForPet(rs: seq<RequestDto>, petId: nat): (r: Option<RequestDto>)
    ensures r.Some? <==> HasPendingRequestForPet(rs, petId)
    ensures r.Some? ==> r.value in rs && r.value.petId == petId && !IsClosedStatus(r.value.status)
  {
    Find(rs, (q: RequestDto) => q.petId == petId && !IsClosedStatus(q.status))
  }

  /**
   * The button state as the comments around it intend: an open request for
   * the pet always hides the button and is the one reported. Without an
   * open request nothing changes, so the caption stays "Adopt Me" as
   * written.
   */
  function AdoptionButtonState(isAuthenticated: bool, pageIsUser: bool, pet: PetDto,
                               rs: seq<RequestDto>): (b: ButtonState)
    ensures b.NoButton? <==> !isAuthenticated || !pageIsUser
    ensures b.Unavailable? <==> isAuthenticated && pageIsUser && pet.status != AVAILABLE
    ensures Shown(b) <==>
      isAuthenticated && pageIsUser && pet.status == AVAILABLE && !HasPendingRequestForPet(rs, pet.id)
    ensures b.AdoptButton? ==> !b.isCompletedAdoption
    ensures b.RequestInfo? ==>
      exists q :: q in rs && q.petId == pet.id && !IsClosedStatus(q.status)
        && q.status == b.requestStatus && q.id == b.requestId
  {
    if !isAuthenticated || !pageIsUser then NoButton
    else if pet.status != AVAILABLE then Unavailable("This pet is " + Lower(pet.status))
    else match OpenRequestForPet(rs, pet.id)
      case Some(request) =>
        RequestInfo("Request " + Lower(RequestStatusName(request.status)), request.status, request.id)
      case None => AdoptButton(false)
  }

  /**
   * The correction touches only the conflict: where no request for the pet
   * is open, the intended state is exactly the as-written one, and as
   * written "Adopt Again" never appears there.
   */
  lemma AsWrittenAgreesWithoutConflict(isAuthenticated: bool, pageIsUser: bool, pet: PetDto, rs: seq<RequestDto>)
    requires !HasPendingRequestForPet(rs, pet.id)
    ensures AdoptionButtonStateAsWritten(isAuthenticated, pageIsUser, pet, rs)
      == AdoptionButtonState(isAuthenticated, pageIsUser, pet, rs)
    ensures AdoptionButtonStateAsWritten(isAuthenticated, pageIsUser, pet, rs).AdoptButton? ==>
      !AdoptionButtonStateAsWritten(isAuthenticated, pageIsUser, pet, rs).isCompletedAdoption
  {
  }

  /** The page's pet list; adopting also updates the shared context. */
  class Page {
    var pets: seq<PetDto>
    const auth: AuthContext

    constructor (auth: AuthContext)
      ensures pets == [] && this.auth == auth
    {
      pets := [];
      this.auth := auth;
    }

    /** `fetchPets` after a successful response. */
    method ReceivePets(fetched: seq<PetDto>)
      modifies this`pets
      ensures pets == fetched
    {
      pets := fetched;
    }

    /**
     * `handleDelete(petId)`: a pet missing from the list stops the handler
     * before the confirmation; otherwise the delete is sent once the visitor
     * confirms, and the pet leaves the list when the server accepts.
     */
    method Delete(petId: nat, confirmed: bool, serverAccepts: bool) returns (sent: bool)
      modifies this`pets
      ensures sent <==> confirmed && exists p :: p in old(pets) && p.id == petId
      ensures sent && serverAccepts ==> pets == Filter(old(pets), (p: PetDto) => p.id != petId)
      ensures !(sent && serverAccepts) ==> pets == old(pets)
    {
      var petToDelete := Find(pets, (p: PetDto) => p.id == petId);
      if petToDelete.None? || !confirmed {
        return false;
      }
      sent := true;
      if serverAccepts {
        pets := Filter(pets, (p: PetDto) => p.id != petId);
      }
    }

    /**
     * `handleAdopt(petId)`: nothing is sent for a visitor who is not signed
     * in. Once the server answers with the new request, it is added to the
     * context and the pet shows PENDING locally; the context's list is then
     * refetched, unless the pet was missing from the page's list, where the
     * success message fails first.
     */
    method Adopt(petId: nat, created: Option<RequestDto>, refetched: Option<seq<RequestDto>>) returns (sent: bool)
      modifies this`pets, auth`userRequests
      ensures sent <==> IsAuthenticated(auth.user)
      ensures !(sent && created.Some?) ==> pets == old(pets) && auth.userRequests == old(auth.userRequests)
      ensures sent && created.Some? ==> pets == WithPetStatus(old(pets), petId, PENDING_PET)
      ensures sent && created.Some? && !(exists p :: p in old(pets) && p.id == petId) ==>
        auth.userRequests == old(auth.userRequests) + [created.value]
      ensures sent && created.Some? && (exists p :: p in old(pets) && p.id == petId) ==>
        auth.userRequests == if refetched.Some? then refetched.value else old(auth.userRequests) + [created.value]
    {
      var petToAdopt := Find(pets, (p: PetDto) => p.id == petId);
      if !IsAuthenticated(auth.user) {
        return false;
      }
      sent := true;
      if created.None? {
        return;
      }
      auth.AddUserRequest(created.value);
      pets := WithPetStatus(pets, petId, PENDING_PET);
      if petToAdopt.Some? {
        auth.RefreshUserRequests(refetched);
      }
    }
  }

  /** `pets.map(pet => pet.id === petId ? { ...pet, status } : pet)`. */
  function WithPetStatus(pets: seq<PetDto>, petId: nat, status: string): (r: seq<PetDto>)
    ensures |r| == |pets|
    ensures forall i :: 0 <= i < |pets| ==> r[i] == if pets[i].id == petId then pets[i].(status := status) else pets[i]
  {
    seq(|pets|, i requires 0 <= i < |pets| => if pets[i].id == petId then pets[i].(status := status) else pets[i])
  }

  /**
   * After a successful request the pet is no longer AVAILABLE on the page,
   * so its adopt button is replaced by the "not available" reason.
   */
  lemma AdoptedPetNotOffered(pets: seq<PetDto>, petId: nat, k: nat, rs: seq<RequestDto>)
    requires k < |pets| && pets[k].id == petId
    ensures WithPetStatus(pets, petId, PENDING_PET)[k].status == PENDING_PET
    ensures !Shown(AdoptionButtonStateAsWritten(true, true, WithPetStatus(pets, petId, PENDING_PET)[k], rs))
    ensures !Shown(AdoptionButtonState(true, true, WithPetStatus(pets, petId, PENDING_PET)[k], rs))
  {
  }

  /** After a delete the pet is gone and every other pet is kept, in order. */
  lemma DeleteRemovesOnlyThatPet(pets: seq<PetDto>, petId: nat)
    ensures forall p :: p in Filter(pets, (q: PetDto) => q.id != petId) ==> p.id != petId
    ensures forall p :: p in pets && p.id != petId ==> p in Filter(pets, (q: PetDto) => q.id != petId)
  {
    var r := Filter(pets, (q: PetDto) => q.id != petId);
    forall p | p in r ensures p.id != petId {
      assert multiset(r)[p] > 0;
    }
    forall p | p in pets && p.id != petId ensures p in r {
      assert multiset(pets)[p] > 0;
    }
  }
}
