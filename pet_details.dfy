/**
 * The single-pet page: which of its adoption panels are visible for the
 * signed-in visitor and the pet's own request history.
 */
module PetDetails {
  import opened Common
  import opened Status
  import opened Dto
  import opened Session
  import opened PetsPage

  /** What the page needs from the context and the fetched pet. */
  datatype View = View(isAuthenticated: bool, isUser: bool, pet: PetDto, userRequests: seq<RequestDto>)

  /** `getRequestForPet(pet.id)`: the first of the user's requests for this pet. */
  function UserRequest(v: View): Option<RequestDto>
  {
    GetRequestForPet(v.userRequests, v.pet.id)
  }

  predicate UserRequestCompleted(v: View)
  {
    UserRequest(v).Some? && RequestStatusName(UserRequest(v).value.status) == "COMPLETED"
  }

  /**
   * The adopt button as written: for a signed-in user and an AVAILABLE pet,
   * shown when no request for the pet is open or the first request for it
   * is COMPLETED.
   */
  predicate AdoptButtonShownAsWritten(v: View)
  {
    v.isAuthenticated && v.isUser && v.pet.status == AVAILABLE
    && (!HasPendingRequestForPet(v.userRequests, v.pet.id) || UserRequestCompleted(v))
  }

  /** The button's caption: "Adopt Again" when the first request is COMPLETED. */
  function AdoptCaptionOf(v: View): string
  {
    if UserRequestCompleted(v) then "Adopt Again" else "Adopt " + v.pet.name
  }

  /** The request-status panel: an open request exists and the first request is not COMPLETED. */
  predicate RequestStatusCardShown(v: View)
  {
    v.isAuthenticated && v.isUser && HasPendingRequestForPet(v.userRequests, v.pet.id)
    && UserRequest(v).Some? && RequestStatusName(UserRequest(v).value.status) != "COMPLETED"
  }

  /** The "Adoption Completed!" panel. */
  predicate CompletedCardShown(v: View)
  {
    v.isAuthenticated && v.isUser && UserRequestCompleted(v)
  }

  /** The "not available" note: the pet is not AVAILABLE and no request for it is open. */
  predicate NotAvailableShown(v: View)
  {
    v.pet.status != AVAILABLE && !HasPendingRequestForPet(v.userRequests, v.pet.id)
  }

  /** The "Login to Adopt" button. */
  predicate LoginButtonShown(v: View)
  {
    !v.isAuthenticated
  }

  /**
   * The panels never contradict each other: the adopt button and the
   * request-status panel are never both visible, nor the status and the
   * completed panels. The login button appears exactly when the visitor
   * is not signed in; the adopt button and both request panels are then
   * hidden, while the "not available" note may still show.
   */
  lemma PanelsExclusive(v: View)
    ensures !(AdoptButtonShownAsWritten(v) && RequestStatusCardShown(v))
    ensures !(RequestStatusCardShown(v) && CompletedCardShown(v))
    ensures !(AdoptButtonShownAsWritten(v) && NotAvailableShown(v))
    ensures LoginButtonShown(v) <==>
      !AdoptButtonShownAsWritten(v) && !RequestStatusCardShown(v) && !CompletedCardShown(v) && !v.isAuthenticated
  {
  }

  /**
   * For a signed-in user, the detail page shows the adopt button exactly
   * when the list page does, and both agree on the caption whenever an
   * open request exists. They differ in the caption when the only request
   * for the pet is a completed one: "Adopt Again" here, "Adopt Me" there.
   */
  lemma AgreesWithPetsPage(v: View)
    requires v.isAuthenticated && v.isUser
    ensures AdoptButtonShownAsWritten(v) ==
      Shown(AdoptionButtonStateAsWritten(true, true, v.pet, v.userRequests))
    ensures AdoptButtonShownAsWritten(v) && HasPendingRequestForPet(v.userRequests, v.pet.id) ==>
      AdoptionButtonStateAsWritten(true, true, v.pet, v.userRequests).isCompletedAdoption
        == UserRequestCompleted(v)
  {
  }

  /** The same discrepancy as on the list page: the button is offered next to an open request. */
  lemma ButtonShownDespiteOpenRequestHere()
    ensures var v := View(true, true, PetDto(5, "Rex", "Dog", 3, "Mixed", "", AVAILABLE, None, 2),
      [RequestDto(1, 9, 5, RequestStatus.Completed, None), RequestDto(2, 9, 5, RequestStatus.Pending, None)]);
      HasPendingRequestForPet(v.userRequests, v.pet.id) && AdoptButtonShownAsWritten(v)
        && !RequestStatusCardShown(v)
  {
    var rs := [RequestDto(1, 9, 5, RequestStatus.Completed, None), RequestDto(2, 9, 5, RequestStatus.Pending, None)];
    assert rs[1].petId == 5 && !IsClosedStatus(rs[1].status);
    assert FirstForPet(rs, 5, 0);
  }

  /** The adopt button as intended: never while a request for the pet is open. */
  predicate AdoptButtonShown(v: View)
  {
    Shown(AdoptionButtonState(v.isAuthenticated, v.isUser, v.pet, v.userRequests))
  }

  /**
   * The intended button appears exactly when no request for the pet is
   * open; it then never stands beside the status panel or the
   * "not available" note, and it agrees with the as-written button.
   */
  lemma IntendedButtonNeverBesideOpenRequest(v: View)
    ensures AdoptButtonShown(v) <==>
      v.isAuthenticated && v.isUser && v.pet.status == AVAILABLE
      && !HasPendingRequestForPet(v.userRequests, v.pet.id)
    ensures AdoptButtonShown(v) ==> !RequestStatusCardShown(v) && !NotAvailableShown(v)
    ensures !HasPendingRequestForPet(v.userRequests, v.pet.id) ==>
      AdoptButtonShown(v) == AdoptButtonShownAsWritten(v)
  {
  }
}
