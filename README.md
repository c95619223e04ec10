# Pet adoption: the request and appointment lifecycle

This project is a Dafny model of the pet adoption system's lifecycle. An adopter asks for a
pet, which creates an adoption request. A shelter (or an admin) approves or rejects the request.
The adopter then books a visit appointment. The shelter moves that appointment through
PENDING, APPROVED, IN_PROGRESS and COMPLETED (or CANCELLED). Completing it marks the adoption
request COMPLETED.

The model has two halves, as the system does.

- **The browser client.** Its decisions are modelled:
  - the five-step timeline, built by joining requests with appointments (`RequestView`);
  - the managers' search filters, offered actions and local list updates (`ManageRequests`);
  - the adopter's status filter, counts and booking hint (`MyRequests`);
  - the session cache of the user's own requests and the role flags (`Session`);
  - the pet list's role detection, edit/delete rule and adopt button (`PetsPage`);
  - the single-pet page's panels (`PetDetails`).
- **The server.** Its services are modelled against an in-memory database (`Store.Database`, four
  tables with identity counters). They are `AppointmentService`, `AdoptionService`, `UserService`,
  `PetService` and `AdminService`.

`Common`, `Status` and `Dto` hold shared pieces: sequence filtering, counting and searching,
ASCII case mapping, the status and role vocabularies, and the record shapes that pass between
client and server.

Pure parts of the source are functions with lemmas. Parts that update state are classes whose
methods are proved against those functions:

- the pages' state hooks;
- the authentication context;
- the services' repositories;
- the shelter's per-pet request-gathering loop.

What the proofs bring out about the system as a whole:

- **The server does not enforce the lifecycle.** The client only offers forward appointment
  moves (`ManageRequests.OfferedTransitionsMoveForward`). The server accepts any of the five
  statuses from any status, in any letter case, so it accepts a COMPLETED appointment going back
  to PENDING (`AppointmentService.ServerAcceptsAnyTransition`,
  `AppointmentService.ServerAcceptsBackwardMove`).
- **The server stores any text as a request status** (`AdoptionService.ServerAcceptsAnyRequestStatus`).
- **The server does not refuse duplicate requests.** It creates a request without looking at the
  caller's other requests for the pet. Only the client's adopt button stands in the way.
- **Booking, unlike requesting, is checked.** A request that has one appointment cannot be booked
  again (`AppointmentService.SecondBookingRejected`). So every request has at most one
  appointment, an invariant the booking guard maintains (`Store.Database.Valid`). The table
  itself has no unique key on the request link, so the invariant rests on calls running one at
  a time (see Left out).
- **An admin is offered buttons the server refuses.** The pet list offers edit and delete to an
  admin on every pet. The server allows them only to the pet's own shelter
  (`PetService.AdminEditRefusedByServer`).
- **Two readings of the role disagree.** The pet list's role flags are substring tests, so they
  can hold together. The context's flags are exact comparisons and exclude each other. The two
  agree on the three role names the server issues (`PetsPage.PageFlagsAgreeOnIssuedRoles`,
  `PetsPage.PageFlagsOverlap`, `Session.RoleFlagsExclusive`).

The timeline follows the code on one point where a prose description of the system differs.
While a request is PENDING, step 1 ("submitted") is *active* and step 2 ("approved") is
*upcoming*. Step 1 becomes completed only once the request leaves PENDING.

## Model

| member | source | states |
|---|---|---|
| Status.ParseRequestStatus | pet-adoption-backend/src/main/java/com/petadoption/entity/AdoptionRequest.java:23-24 | The stored status text is read without loss: the parsed status's name is the text itself, and the result is an unrecognized status exactly when the text is none of the six known names |
| Status.ParseRequestStatusName | pet-adoption-backend/src/main/java/com/petadoption/entity/AdoptionRequest.java:23-24 | Every status the server stores reads back as itself after going through its name |
| Status.RequestStatusNameInjective | pet-adoption-backend/src/main/java/com/petadoption/entity/AdoptionRequest.java:23-24 | Two statuses that parsing can produce are equal exactly when their names are |
| Status.ParseAppointmentStatus | pet-adoption-backend/src/main/java/com/petadoption/service/AppointmentService.java:97-101 | `valueOf(text.toUpperCase())`: a value exactly when the upper-cased text is the name of one of the five statuses, and then the value is the one with that name |
| Status.ParseAppointmentStatusLower | pet-adoption-backend/src/main/java/com/petadoption/service/AppointmentService.java:98 | Because the text is upper-cased before `valueOf`, the lower-case spelling of every status name parses to that status |
| Status.ParseAppointmentStatusName | pet-adoption-backend/src/main/java/com/petadoption/entity/Appointment.java:42-44 | Every one of the five enum names parses back to its own status |
| Status.ParseRole | pet-adoption-backend/src/main/java/com/petadoption/service/UserService.java:39 | `Role.valueOf(text.toUpperCase())`: a role exactly when the upper-cased text is USER, SHELTER or ADMIN |
| Store.UserByEmail | pet-adoption-backend/src/main/java/com/petadoption/repository/UserRepository.java:10 | `findByEmail`: a found account is stored and has that e-mail; nothing is found exactly when no stored account has it |
| Store.SameIdSameRow | pet-adoption-backend/src/main/java/com/petadoption/entity/Pet.java:9-11 | Under the identity-key invariant, two stored rows with the same id are the same row |
| RequestView.FindAppointment | pet-adoption-frontend/src/pages/MyRequests.jsx:108-110 | `getAppointmentDetails`: nothing exactly when no appointment names the request; otherwise the first appointment that does |
| RequestView.TimelineJoinRules | pet-adoption-frontend/src/pages/ManageRequests.jsx:533-552 | Timeline steps per request. Step 1 is completed iff the request left PENDING. Step 2 is completed iff APPROVED, IN_PROGRESS or COMPLETED, and upcoming iff PENDING. Step 3 is completed iff some appointment names the request. Step 4 is completed iff the first such appointment is IN_PROGRESS or COMPLETED. Step 5 is completed iff the request is COMPLETED. Without an appointment, steps 3 and 4 are upcoming |
| RequestView.BuildTimeline | pet-adoption-frontend/src/pages/ManageRequests.jsx:533-552 | The five step classes, with no contract of their own. `RequestView.TimelineJoinRules` and `RequestView.TimelineShape` state them |
| RequestView.TimelineShape | pet-adoption-frontend/src/pages/MyRequests.jsx:418-437 | The steps are consistent. Step 2 completed implies step 1 completed, and step 2 is upcoming exactly while step 1 is active. Step 4 completed implies step 3 completed, and step 4 is upcoming exactly while step 3 is. A completed adoption has steps 1 and 2 completed. Step 1 is never upcoming, and steps 3 and 5 are never active |
| RequestView.SortNewestFirst | pet-adoption-frontend/src/pages/ManageRequests.jsx:32-34 | The fetched list sorted by `createdAt`, falling back to the id: the result is ordered newest first and is a permutation of the fetched list |
| ManageRequests.EndOfDay | pet-adoption-frontend/src/pages/ManageRequests.jsx:91-95 | `setHours(23, 59, 59, 999)`: the result lies in the same day as the input and is that day's last millisecond |
| ManageRequests.NoActiveFilterPassesAll | pet-adoption-frontend/src/pages/ManageRequests.jsx:120-122 | With every filter field empty, every request passes the filter predicate |
| ManageRequests.SearchSelectsPassing | pet-adoption-frontend/src/pages/ManageRequests.jsx:61-105 | The early return for "no filters" agrees with filtering. The search result is exactly the passing requests, each as often as in the list, in list order. Searching a concatenation concatenates the results. With no active filter the list is returned unchanged |
| ManageRequests.Search | pet-adoption-frontend/src/pages/ManageRequests.jsx:61-105 | Every request shown passes the filters, and none is shown more often than it is listed |
| ManageRequests.Passes | pet-adoption-frontend/src/pages/ManageRequests.jsx:69-100 | The filter predicate, with no contract of its own. `ManageRequests.NoActiveFilterPassesAll` and `ManageRequests.StatusFilterExact` state its properties |
| ManageRequests.StatusFilterExact | pet-adoption-frontend/src/pages/ManageRequests.jsx:71-73 | With a status chosen, every request in the result has exactly that status |
| ManageRequests.RequestActions | pet-adoption-frontend/src/pages/ManageRequests.jsx:205-208 | Approve/Reject are offered iff the request is PENDING, and they only lead to APPROVED or REJECTED |
| ManageRequests.CanUpdateIffActionOffered | pet-adoption-frontend/src/pages/ManageRequests.jsx:210-237 | The two render conditions of the appointment buttons coincide: an appointment can be updated exactly when an action exists for it |
| ManageRequests.OfferedTransitionTable | pet-adoption-frontend/src/pages/ManageRequests.jsx:217-237 | Offered appointment moves are exactly PENDING to APPROVED or CANCELLED, APPROVED to IN_PROGRESS, and IN_PROGRESS to COMPLETED. COMPLETED and CANCELLED offer nothing |
| ManageRequests.NextAppointmentAction | pet-adoption-frontend/src/pages/ManageRequests.jsx:217-237 | The offered buttons, with no contract of their own. `ManageRequests.OfferedTransitionTable` and `ManageRequests.CanUpdateIffActionOffered` state them |
| ManageRequests.OfferedTransitionsMoveForward | pet-adoption-frontend/src/pages/ManageRequests.jsx:210-237 | Every offered move goes strictly forward in the lifecycle and starts from a status that is not final |
| ManageRequests.WithRequestStatus | pet-adoption-frontend/src/pages/ManageRequests.jsx:131-137 | The local update keeps the length and order, gives the new status to the records with the id, and keeps every other record |
| ManageRequests.WithAppointmentStatus | pet-adoption-frontend/src/pages/ManageRequests.jsx:159-161 | The same for the appointment list |
| ManageRequests.LocalUpdateTouchesOne | pet-adoption-frontend/src/pages/ManageRequests.jsx:131-137 | With distinct ids, the update changes exactly one record and only its status field |
| ManageRequests.LocalUpdateUnknownId | pet-adoption-frontend/src/pages/ManageRequests.jsx:131-137 | An id not in the list changes nothing |
| ManageRequests.CompletionMarksRequest | pet-adoption-frontend/src/pages/ManageRequests.jsx:163-169 | After the completion's second update, the appointment's request reads COMPLETED, and its timeline's last step is completed |
| ManageRequests.Page.constructor | pet-adoption-frontend/src/pages/ManageRequests.jsx:7-21 | The page starts with empty lists, empty filters and no search applied |
| ManageRequests.Page.ReceiveRequests | pet-adoption-frontend/src/pages/ManageRequests.jsx:28-42 | `fetchRequests`: both lists become the fetched requests sorted newest first (ordered, same elements). The appointments and the filters are kept |
| ManageRequests.Page.ReceiveAppointments | pet-adoption-frontend/src/pages/ManageRequests.jsx:44-51 | `fetchAppointments`: the appointment list becomes the fetched one |
| ManageRequests.Page.ChangeFilters | pet-adoption-frontend/src/pages/ManageRequests.jsx:53-59 | `handleFilterChange`: only the filter form changes |
| ManageRequests.Page.RunSearch | pet-adoption-frontend/src/pages/ManageRequests.jsx:61-105 | `handleSearch`: the shown list becomes the search result for the current filters. The "filtered" flag is set iff a filter is active |
| ManageRequests.Page.ResetFilters | pet-adoption-frontend/src/pages/ManageRequests.jsx:107-118 | `handleResetFilters`: the filters are cleared, the whole list is shown, and the flag is cleared |
| ManageRequests.Page.StatusUpdate | pet-adoption-frontend/src/pages/ManageRequests.jsx:124-150 | `handleStatusUpdate`: when the server accepts, both lists get the status on the record with the id. When it refuses, nothing changes |
| ManageRequests.Page.AppointmentStatusUpdate | pet-adoption-frontend/src/pages/ManageRequests.jsx:152-187 | `handleAppointmentStatusUpdate`: when accepted, the appointment gets the status. A COMPLETED update of a listed appointment names the request of the first appointment with that id, and only that case does. When that second update is accepted, both request lists mark it COMPLETED; otherwise they are unchanged. A refusal changes nothing |
| MyRequests.FilterByStatusSelects | pet-adoption-frontend/src/pages/MyRequests.jsx:77-84 | A status filter keeps exactly the requests with that status, each as often as in the list |
| MyRequests.StatusCounts | pet-adoption-frontend/src/pages/MyRequests.jsx:87-100 | One drop-down entry per status option, in the option order, with its value and label |
| MyRequests.CountMatchesShownList | pet-adoption-frontend/src/pages/MyRequests.jsx:87-100 | Each entry's count is the number of cards shown when that entry is selected; "ALL" counts every request |
| MyRequests.StatusCountsPartition | pet-adoption-frontend/src/pages/MyRequests.jsx:87-96 | The six status counts plus the requests with any other stored status add up to the "ALL" count |
| MyRequests.BookHintIffBookButton | pet-adoption-frontend/src/pages/MyRequests.jsx:157-179 | The "Ready to book" hint appears iff `canBookAppointment` holds. A linked appointment's own status is shown iff an appointment exists |
| MyRequests.GetNextAction | pet-adoption-frontend/src/pages/MyRequests.jsx:161-179 | The hint, with no contract of its own. `MyRequests.BookHintIffBookButton` states it |
| MyRequests.BookingOfferedOnce | pet-adoption-frontend/src/pages/MyRequests.jsx:157-159 | Booking is offered iff the request is APPROVED and no fetched appointment names it |
| MyRequests.Page.constructor | pet-adoption-frontend/src/pages/MyRequests.jsx:9-15 | Empty lists, filter "ALL", shown list consistent with the filter |
| MyRequests.Page.ReceiveRequests | pet-adoption-frontend/src/pages/MyRequests.jsx:37-66 | `fetchRequests` and its effect: the requests become the fetched list sorted newest first. The shown list is refiltered only for a non-empty list, which keeps it consistent from the initial state |
| MyRequests.Page.ReceiveAppointments | pet-adoption-frontend/src/pages/MyRequests.jsx:68-75 | `fetchAppointments`: the appointment list becomes the fetched one |
| MyRequests.Page.SelectFilter | pet-adoption-frontend/src/pages/MyRequests.jsx:37-42 | Selecting a filter refilters a non-empty list and keeps the shown list consistent with the filter |
| Session.GetRequestForPet | pet-adoption-frontend/src/context/AuthContext.jsx:97-99 | Nothing iff the user has no request for the pet; otherwise the first request for it, whatever its status |
| Session.HasPendingRequestForPet | pet-adoption-frontend/src/context/AuthContext.jsx:82-88 | Some request for the pet has a status other than COMPLETED, REJECTED or CANCELLED. No contract of its own; `Session.RequestQueriesAgree`, `Session.SingleRequestQueries` and `PetsPage.OpenRequestForPet` state its properties |
| Session.HasCompletedRequestForPet | pet-adoption-frontend/src/context/AuthContext.jsx:90-95 | Some request for the pet is COMPLETED. No contract of its own; `Session.RequestQueriesAgree` and `Session.SingleRequestQueries` state its properties |
| Session.RequestQueriesAgree | pet-adoption-frontend/src/context/AuthContext.jsx:82-99 | An open or a completed request for a pet implies a first request for it; no first request means neither query holds |
| Session.SingleRequestQueries | pet-adoption-frontend/src/context/AuthContext.jsx:82-95 | For a pet whose only request is the last one, "pending" iff its status is not COMPLETED, REJECTED or CANCELLED, and "completed" iff it is COMPLETED |
| Session.ReplaceById | pet-adoption-frontend/src/context/AuthContext.jsx:74-80 | `updateUserRequest`'s map: same length, records with the id replaced, all others kept |
| Session.ReplaceByIdProperties | pet-adoption-frontend/src/context/AuthContext.jsx:74-80 | Ids stay in place, replacing twice is replacing once, and an unknown id changes nothing |
| Session.RoleFlagsExclusive | pet-adoption-frontend/src/context/AuthContext.jsx:115-118 | At most one of `isAdmin`, `isShelter`, `isUser` holds |
| Session.AuthContext.constructor | pet-adoption-frontend/src/context/AuthContext.jsx:21-28 | A stored, non-empty, decodable token signs the user in with its `sub` and `roles`; otherwise nobody is signed in. Requests are loaded only for a stored token |
| Session.AuthContext.DecodeTokenAndSetUser | pet-adoption-frontend/src/context/AuthContext.jsx:30-46 | A decodable token sets user and role from its claims; a malformed one leaves both unchanged instead of failing |
| Session.AuthContext.Login | pet-adoption-frontend/src/context/AuthContext.jsx:57-61 | The token is stored and decoded as above; the request list is replaced when the fetch succeeds |
| Session.AuthContext.Logout | pet-adoption-frontend/src/context/AuthContext.jsx:63-68 | Token, user, role and requests are cleared, so no flag holds and no pet is blocked |
| Session.AuthContext.RefreshUserRequests | pet-adoption-frontend/src/context/AuthContext.jsx:48-55 | A successful fetch replaces the list; a failed one keeps it |
| Session.AuthContext.AddUserRequest | pet-adoption-frontend/src/context/AuthContext.jsx:70-72 | Exactly one request is appended at the end. An open one now blocks its pet, and every pet blocked before stays blocked |
| Session.AuthContext.UpdateUserRequest | pet-adoption-frontend/src/context/AuthContext.jsx:74-80 | The list becomes the replacement by id |
| PetsPage.CurrentUserRoleOfSession | pet-adoption-frontend/src/pages/Pets.jsx:25-41 | For a session filled from a decodable token, the fallback chain yields its `roles` claim if non-empty, else its `role` claim, else nothing, and never an empty text |
| PetsPage.CurrentUserRole | pet-adoption-frontend/src/pages/Pets.jsx:25-41 | A non-empty role held by the context wins. The result is never an empty text |
| PetsPage.PageFlagsAreSubstringTests | pet-adoption-frontend/src/pages/Pets.jsx:44-46 | The page's flags are exactly substring tests; the exact comparisons add nothing |
| PetsPage.PageFlagsAgreeOnIssuedRoles | pet-adoption-frontend/src/pages/Pets.jsx:44-46 | For ROLE_ADMIN, ROLE_SHELTER and ROLE_USER the page's flags equal the context's exact flags |
| PetsPage.PageFlagsOverlap | pet-adoption-frontend/src/pages/Pets.jsx:44-46 | A role text can make the page's admin and user flags hold together while neither exact flag holds |
| PetsPage.ShelterNeverEditsAsWritten | pet-adoption-frontend/src/pages/Pets.jsx:116-120 | As written, a shelter is never offered edit or delete, not even on its own pets |
| PetsPage.CanEditDeleteAsWritten | pet-adoption-frontend/src/pages/Pets.jsx:116-120 | As-written `canEditDelete`, a predicate without a contract of its own. `PetsPage.ShelterNeverEditsAsWritten` states its effect |
| PetsPage.CanEditDeleteOwnPets | pet-adoption-frontend/src/pages/Pets.jsx:116-120 | As intended, a shelter gets the buttons exactly on pets it owns, and an admin is treated as written |
| PetsPage.ButtonShownDespiteOpenRequest | pet-adoption-frontend/src/pages/Pets.jsx:134-149 | A concrete list exists (a completed request, then a pending one) for which the as-written state shows "Adopt Again" beside an open request |
| PetsPage.OpenRequestForPet | pet-adoption-frontend/src/context/AuthContext.jsx:82-88 | Some open request for the pet exists iff `hasPendingRequestForPet`, and the result is one such request |
| PetsPage.AdoptionButtonState | pet-adoption-frontend/src/pages/Pets.jsx:124-156 | The corrected state. No button iff the visitor is not a signed-in user; the unavailable note iff a signed-in user views a pet that is not AVAILABLE. The button is shown iff a signed-in user views an AVAILABLE pet with no open request. A request-info state reports an open request for the pet. The caption is "Adopt Me", as written, wherever the button shows |
| PetsPage.AdoptionButtonStateAsWritten | pet-adoption-frontend/src/pages/Pets.jsx:124-156 | As written: no button iff the visitor is not a signed-in user; the unavailable note iff a signed-in user views a pet that is not AVAILABLE. With an open request for an AVAILABLE pet, the FIRST request for the pet decides: the button shows iff that request's status is COMPLETED, and otherwise that request's id and status are reported. "Adopt Again" appears only while a request for the pet is open |
| PetsPage.AsWrittenAgreesWithoutConflict | pet-adoption-frontend/src/pages/Pets.jsx:124-156 | The correction changes only the open-request case. Without an open request the as-written and corrected states are equal, and as written "Adopt Again" never appears then |
| PetsPage.WithPetStatus | pet-adoption-frontend/src/pages/Pets.jsx:102-104 | Only the pets with the id get the new status; length, order and the other pets are kept |
| PetsPage.AdoptedPetNotOffered | pet-adoption-frontend/src/pages/Pets.jsx:102-104 | After a request the pet reads PENDING, so neither rule shows its adopt button |
| PetsPage.DeleteRemovesOnlyThatPet | pet-adoption-frontend/src/pages/Pets.jsx:74 | After a delete no pet with that id is left and every other pet is kept |
| PetsPage.Page.ReceivePets | pet-adoption-frontend/src/pages/Pets.jsx:52-62 | The list becomes the fetched pets |
| PetsPage.Page.Delete | pet-adoption-frontend/src/pages/Pets.jsx:64-81 | The delete is sent iff the pet is listed and the visitor confirms. The list loses exactly that pet iff the server accepts; otherwise it is unchanged |
| PetsPage.Page.Adopt | pet-adoption-frontend/src/pages/Pets.jsx:87-114 | Sent iff signed in. On success the new request is appended to the session and only that pet reads PENDING. The session list is then refetched unless the pet was not listed |
| PetDetails.PanelsExclusive | pet-adoption-frontend/src/pages/PetDetails.jsx:157-196 | The adopt button never appears with the status card or the not-available note, and the status and completed cards exclude each other. The login button appears exactly when the visitor is not signed in; the adopt button, status card and completed card are then hidden |
| PetDetails.AdoptButtonShownAsWritten | pet-adoption-frontend/src/pages/PetDetails.jsx:157-161 | The as-written adopt-button condition. No contract of its own; `PetDetails.PanelsExclusive`, `PetDetails.AgreesWithPetsPage` and `PetDetails.ButtonShownDespiteOpenRequestHere` state its properties |
| PetDetails.RequestStatusCardShown | pet-adoption-frontend/src/pages/PetDetails.jsx:169 | The status-card condition. No contract of its own; `PetDetails.PanelsExclusive` states its properties |
| PetDetails.CompletedCardShown | pet-adoption-frontend/src/pages/PetDetails.jsx:183 | The completed-card condition. No contract of its own; `PetDetails.PanelsExclusive` states its properties |
| PetDetails.NotAvailableShown | pet-adoption-frontend/src/pages/PetDetails.jsx:190 | The not-available note, which has no sign-in condition. No contract of its own; `PetDetails.PanelsExclusive` states its properties |
| PetDetails.LoginButtonShown | pet-adoption-frontend/src/pages/PetDetails.jsx:196 | The login-button condition. No contract of its own; `PetDetails.PanelsExclusive` states its properties |
| PetDetails.AgreesWithPetsPage | pet-adoption-frontend/src/pages/PetDetails.jsx:157-164 | For a signed-in user the detail page shows the button exactly when the list page does, with the same caption whenever a request is open |
| PetDetails.ButtonShownDespiteOpenRequestHere | pet-adoption-frontend/src/pages/PetDetails.jsx:160-161 | The same concrete list shows the button beside an open request and hides the status card |
| PetDetails.IntendedButtonNeverBesideOpenRequest | pet-adoption-frontend/src/pages/PetDetails.jsx:157-164 | The intended button appears iff no request is open. It is then never beside the status card or the not-available note, and it agrees with the as-written one |
| AppointmentService.ToDto | pet-adoption-backend/src/main/java/com/petadoption/service/AppointmentService.java:108-119 | Every field of the appointment is carried over unchanged |
| AppointmentService.BookingCheck | pet-adoption-backend/src/main/java/com/petadoption/service/AppointmentService.java:37-52 | Booking passes iff the caller, the shelter and the request exist, the request is the caller's, it is "APPROVED", and it has no appointment. The guards run in the source's order, with its error kinds |
| AppointmentService.NewAppointment | pet-adoption-backend/src/main/java/com/petadoption/service/AppointmentService.java:54-61 | A new appointment is PENDING. It is linked to the caller, the shelter and the request, and copies the visitor name, the count and the date |
| AppointmentService.SecondBookingRejected | pet-adoption-backend/src/main/java/com/petadoption/service/AppointmentService.java:50-52 | After a successful booking, any further booking for the same request fails |
| AppointmentService.AppendKeepsOneAppointment | pet-adoption-backend/src/main/java/com/petadoption/entity/AdoptionRequest.java:26-28 | Saving an appointment for a request without one keeps at most one appointment per request |
| AppointmentService.StatusUpdateCheck | pet-adoption-backend/src/main/java/com/petadoption/service/AppointmentService.java:87-101 | Succeeds iff the appointment and the caller exist, the caller is an admin or the appointment's shelter, and the text names a status ignoring case. The result is the status with that name |
| AppointmentService.WithStatus | pet-adoption-backend/src/main/java/com/petadoption/service/AppointmentService.java:98-103 | Only the appointment with the id gets the new status |
| AppointmentService.ServerAcceptsAnyTransition | pet-adoption-backend/src/main/java/com/petadoption/service/AppointmentService.java:97-101 | For an authorized caller every status, in upper or lower case, is accepted whatever the current status |
| AppointmentService.ServerAcceptsBackwardMove | pet-adoption-backend/src/main/java/com/petadoption/service/AppointmentService.java:97-101 | The server accepts a COMPLETED appointment going back to PENDING, a move the management page never offers |
| AppointmentService.ToDtos | pet-adoption-backend/src/main/java/com/petadoption/service/AppointmentService.java:71-73 | One DTO per appointment, in order |
| AppointmentService.ToDtosMembership | pet-adoption-backend/src/main/java/com/petadoption/service/AppointmentService.java:71-73 | An appointment's DTO is listed iff the appointment is |
| AppointmentService.UserAppointments | pet-adoption-backend/src/main/java/com/petadoption/service/AppointmentService.java:68-74 | Fails iff the caller is unknown; otherwise the DTOs of exactly the caller's appointments |
| AppointmentService.ShelterAppointments | pet-adoption-backend/src/main/java/com/petadoption/service/AppointmentService.java:76-85 | An unknown caller gets "Shelter not found". Success iff the caller is a shelter or an admin, and then exactly the appointments at that shelter |
| AppointmentService.Service.CreateAppointment | pet-adoption-backend/src/main/java/com/petadoption/service/AppointmentService.java:35-66 | A failed guard changes nothing. Otherwise one PENDING appointment with the next id is saved and returned. The database invariants hold afterwards, including one appointment per request |
| AppointmentService.Service.UpdateAppointmentStatus | pet-adoption-backend/src/main/java/com/petadoption/service/AppointmentService.java:87-106 | A failed guard changes nothing; otherwise only that appointment's status changes, to the parsed value |
| AdoptionService.ToDto | pet-adoption-backend/src/main/java/com/petadoption/service/AdoptionService.java:159-166 | The DTO carries id, user, pet and the status text exactly, and no date |
| AdoptionService.ToDtoRoundTrip | pet-adoption-backend/src/main/java/com/petadoption/service/AdoptionService.java:159-166 | The request can be rebuilt from its DTO, and the client's sort key for it is its id |
| AdoptionService.ToDtos | pet-adoption-backend/src/main/java/com/petadoption/service/AdoptionService.java:106-108 | One DTO per request, in order |
| AdoptionService.ToDtosMembership | pet-adoption-backend/src/main/java/com/petadoption/service/AdoptionService.java:106-108 | A request's DTO is listed iff the request is: the mapping loses no request and merges none |
| AdoptionService.ForPet | pet-adoption-backend/src/main/java/com/petadoption/repository/AdoptionRequestRepository.java:13 | `findByPet`: exactly the stored requests for the pet |
| AdoptionService.ShelterPets | pet-adoption-backend/src/main/java/com/petadoption/repository/PetRepository.java:12 | `findByShelterId`: exactly the stored pets of the shelter |
| AdoptionService.RequestsForPetsMembership | pet-adoption-backend/src/main/java/com/petadoption/service/AdoptionService.java:94-99 | The pet-by-pet gathering holds exactly the requests whose pet is one of the given pets |
| AdoptionService.RequestsByPet | pet-adoption-backend/src/main/java/com/petadoption/service/AdoptionService.java:60-74 | A missing pet is reported first. Success iff the pet and the caller exist and the caller owns the pet or is an admin. The result then lists exactly the stored requests for that pet: a stored request's DTO is listed iff its pet is that pet |
| AdoptionService.UserRequests | pet-adoption-backend/src/main/java/com/petadoption/service/AdoptionService.java:50-57 | Fails with "User not found" iff the caller is unknown. Otherwise it lists exactly the caller's requests: a stored request's DTO is listed iff the request is the caller's |
| AdoptionService.AllRequestsSelects | pet-adoption-backend/src/main/java/com/petadoption/service/AdoptionService.java:77-109 | An admin gets the whole table. A shelter gets exactly the requests whose pet it owns. A plain user is refused |
| AdoptionService.AllRequests | pet-adoption-backend/src/main/java/com/petadoption/service/AdoptionService.java:77-109 | An unknown caller gets "User not found". Success iff the caller is an admin or a shelter, and then only stored requests are listed. `AdoptionService.AllRequestsSelects` states which ones |
| AdoptionService.UpdateCheck | pet-adoption-backend/src/main/java/com/petadoption/service/AdoptionService.java:113-147 | The update is allowed iff the request and the caller exist and the caller is an admin or the shelter owning the pet. A plain user is never allowed |
| AdoptionService.WithStatus | pet-adoption-backend/src/main/java/com/petadoption/service/AdoptionService.java:149-150 | Only the request with the id gets the new status text |
| AdoptionService.CreateCheck | pet-adoption-backend/src/main/java/com/petadoption/service/AdoptionService.java:35-38 | Creation passes iff the caller and the pet exist; a missing caller is reported first |
| AdoptionService.ServerAcceptsAnyRequestStatus | pet-adoption-backend/src/main/java/com/petadoption/service/AdoptionService.java:149 | Any status text is stored and read back unchanged by the client; unknown texts become unrecognized statuses |
| AdoptionService.Service.CreateAdoptionRequest | pet-adoption-backend/src/main/java/com/petadoption/service/AdoptionService.java:34-47 | A failed check changes nothing. Otherwise one PENDING request by the caller for the pet is saved under the next id and returned |
| AdoptionService.Service.GetAllAdoptionRequests | pet-adoption-backend/src/main/java/com/petadoption/service/AdoptionService.java:77-109 | The loop over the shelter's pets computes exactly the listing above (mapped to DTOs), with the same errors |
| AdoptionService.Service.UpdateAdoptionRequestStatus | pet-adoption-backend/src/main/java/com/petadoption/service/AdoptionService.java:113-155 | A failed guard changes nothing; otherwise only that request's status changes, to the given text, and the invariants hold |
| UserService.ToDto | pet-adoption-backend/src/main/java/com/petadoption/service/UserService.java:85-101 | Every column but the password is carried over, and the role's name parses back to the role |
| UserService.RegistrationCheck | pet-adoption-backend/src/main/java/com/petadoption/service/UserService.java:27-39 | Registration passes iff a non-empty password and a role naming one of the three (ignoring case) are given. A missing password is reported first, and the result is the named role |
| UserService.ContactKeptForParsedRole | pet-adoption-backend/src/main/java/com/petadoption/service/UserService.java:39-47 | The source's ignore-case test for SHELTER or ADMIN is the same as the parsed role being shelter or admin |
| UserService.LoadUserByUsername | pet-adoption-backend/src/main/java/com/petadoption/service/UserService.java:69-83 | Fails with the e-mail in the message iff no account has the e-mail. Otherwise the account's e-mail and password, with authority "ROLE_" plus the role name |
| UserService.AuthorityMatchesClientFlags | pet-adoption-backend/src/main/java/com/petadoption/service/UserService.java:81 | The granted authority turns on exactly the client flag of the account's role |
| UserService.UserProfile | pet-adoption-backend/src/main/java/com/petadoption/service/UserService.java:85-101 | Fails with "User not found" iff no account has the e-mail. Otherwise it returns that account without the password: its id, name, e-mail and contact details, and a role text that parses back to its role |
| UserService.UpdatedProfile | pet-adoption-backend/src/main/java/com/petadoption/service/UserService.java:107-115 | The name always changes. Contact details change only for a shelter or an admin. Id, e-mail, role and password never change |
| UserService.ReplaceUser | pet-adoption-backend/src/main/java/com/petadoption/service/UserService.java:117 | Saving replaces only the rows with that account's id |
| UserService.Shelters | pet-adoption-backend/src/main/java/com/petadoption/service/UserService.java:149-151 | Exactly the stored accounts that are shelters or admins |
| UserService.Service.RegisterUser | pet-adoption-backend/src/main/java/com/petadoption/service/UserService.java:26-66 | A failed check changes nothing. Otherwise one account is saved under the next id, with the encoded password, the parsed role, and contact details only for a shelter or an admin |
| UserService.Service.UpdateUserProfile | pet-adoption-backend/src/main/java/com/petadoption/service/UserService.java:103-131 | An unknown e-mail changes nothing; otherwise the found account is replaced by its updated profile |
| UserService.Service.ChangePassword | pet-adoption-backend/src/main/java/com/petadoption/service/UserService.java:133-147 | An unknown e-mail is refused first, a wrong current password next, and a new password shorter than six UTF-16 code units (Java `length()`) after that; each refusal changes nothing. Otherwise the encoded new password is stored, and with a sound encoder it is the one that matches |
| Common.Utf16Length | pet-adoption-backend/src/main/java/com/petadoption/service/UserService.java:141 | Java `String.length()`: at least the number of characters and at most twice that, and equal to it when every character lies in the Basic Multilingual Plane |
| PetService.ToDto | pet-adoption-backend/src/main/java/com/petadoption/service/PetService.java:53-63 | Every column is carried over, with the owner by id |
| PetService.GetPetById | pet-adoption-backend/src/main/java/com/petadoption/service/PetService.java:45-70 | Fails, naming the id, iff no pet has it; otherwise the stored pet with that id |
| PetService.GetAllPets | pet-adoption-backend/src/main/java/com/petadoption/service/PetService.java:123-140 | One DTO per stored pet, in table order |
| PetService.NewPet | pet-adoption-backend/src/main/java/com/petadoption/service/PetService.java:81-98 | The new pet copies the form, has the caller as shelter, and has a photo only when one came |
| PetService.EditedPet | pet-adoption-backend/src/main/java/com/petadoption/service/PetService.java:157-170 | The form's six fields are overwritten. The old photo is kept unless a new one came. Id and owner stay |
| PetService.ReplacePet | pet-adoption-backend/src/main/java/com/petadoption/service/PetService.java:172 | Saving replaces only the rows with that pet's id |
| PetService.WithoutPet | pet-adoption-backend/src/main/java/com/petadoption/service/PetService.java:210 | `deleteById`: exactly the stored pets with another id remain |
| PetService.FreshIdsWithoutPet | pet-adoption-backend/src/main/java/com/petadoption/service/PetService.java:210 | Deleting keeps the identity-key invariant |
| PetService.AddedPetIsFound | pet-adoption-backend/src/main/java/com/petadoption/service/PetService.java:72-121 | A pet just added is what `getPetById` returns for its id |
| PetService.EditedPetIsFound | pet-adoption-backend/src/main/java/com/petadoption/service/PetService.java:142-193 | After an edit, `getPetById` returns the edited listing |
| PetService.DeletedPetIsGone | pet-adoption-backend/src/main/java/com/petadoption/service/PetService.java:195-216 | After a delete the id is not found, and every other id is found as before |
| PetService.AdminEditRefusedByServer | pet-adoption-backend/src/main/java/com/petadoption/service/PetService.java:152-155 | An admin who is offered edit/delete on another shelter's pet is refused by the owner check |
| PetService.Service.AddPet | pet-adoption-backend/src/main/java/com/petadoption/service/PetService.java:72-121 | An unknown caller gets "Failed to add pet" and nothing changes. Otherwise one pet is saved under the next id and returned |
| PetService.Service.UpdatePet | pet-adoption-backend/src/main/java/com/petadoption/service/PetService.java:142-193 | A caller who is not the owner (or a missing pet or account) gets "Failed to update pet" and nothing changes. Otherwise only that pet's row becomes the edited pet |
| PetService.Service.DeletePet | pet-adoption-backend/src/main/java/com/petadoption/service/PetService.java:195-216 | A caller who is not the owner, or a pet still named by a request, gets "Failed to delete pet" and nothing changes. Otherwise exactly that pet leaves the table, and the invariants hold |
| AdminService.Dashboard | pet-adoption-backend/src/main/java/com/petadoption/service/AdminService.java:32-47 | The totals are the table sizes; the pending count is the number of "PENDING" requests, at most the total |
| AdminService.AdoptionReportOf | pet-adoption-backend/src/main/java/com/petadoption/service/AdminService.java:49-66 | Each status count is the number of requests with exactly that text, and their sum is at most the total. The recent list is the first min(10, n) requests |
| AdminService.StatusCountsBounded | pet-adoption-backend/src/main/java/com/petadoption/service/AdminService.java:53-59 | The pending, approved and rejected counts together never exceed the number of requests |
| AdminService.DashboardAgreesWithReport | pet-adoption-backend/src/main/java/com/petadoption/service/AdminService.java:36-38 | The dashboard and the report agree on the total and on the pending count |
| AdminService.UserReportOf | pet-adoption-backend/src/main/java/com/petadoption/service/AdminService.java:68-82 | Each role count is the number of accounts with that role, and the three add up to the total |
| AdminService.RoleCountsPartition | pet-adoption-backend/src/main/java/com/petadoption/service/AdminService.java:72-78 | Every account is counted under exactly one role |
| AdminService.PetReportOf | pet-adoption-backend/src/main/java/com/petadoption/service/AdminService.java:84-99 | Available and adopted counts are the numbers with those texts, together at most the total. The recent list is the first min(10, n) pets. The grouping is the one below |
| AdminService.PetStatusCountsBounded | pet-adoption-backend/src/main/java/com/petadoption/service/AdminService.java:88-92 | The available and adopted counts together never exceed the number of pets |
| AdminService.PetsByType | pet-adoption-backend/src/main/java/com/petadoption/service/AdminService.java:110-113 | The keys are exactly the types that occur, each mapped to its number of pets |
| AdminService.PetsByTypeSum | pet-adoption-backend/src/main/java/com/petadoption/service/AdminService.java:110-113 | The grouped counts add up to the number of pets |

## Left out

- HTTP transport, the async orchestration and UI side effects are not modelled. This covers axios calls, refetches after an update, toasts, `window.confirm` (a boolean parameter), `alert` in `handleViewAppointment`, scrolling and page reloads. A server answer is a parameter (`serverAccepts`, `fetched`, `created`).
- The refetch after `handleStatusUpdate`/`handleAppointmentStatusUpdate` is not modelled as part of those methods; it is a separate `ReceiveRequests`/`ReceiveAppointments` call.
- `PetDetails.jsx`'s `handleAdopt` and its page fetch are left out. The handler only sends the request and reloads the page; the server side of that request is `AdoptionService.Service.CreateAdoptionRequest`.
- Spring Security's URL rules (which role may reach which endpoint), the JWT filter and the token issuer are not modelled. The services are modelled as if reached by any signed-in caller. The caller's e-mail is a parameter.
- Token decoding (`atob` plus `JSON.parse`) is an abstract function returning the claims or nothing. The `roles` claim is treated as text; an array-valued claim is not modelled.
- The password encoder is an abstract `encode`/`matches` pair.
- Photo storage (directory, file name, `Files.write`, current time) is not modelled. The stored URL is a parameter, absent when no photo came. The `IOException` path is not modelled.
- Dates are integer millisecond timestamps in UTC. Local time zones are not modelled, so `EndOfDay` is the UTC day's last millisecond.
- Case mapping (`toUpperCase`, `toLowerCase`, `equalsIgnoreCase`) covers ASCII letters only.
- Java `Long`/`int` widths and overflow are not modelled; ids and counts are unbounded naturals.
- Store.UserByEmail: duplicate e-mails are not excluded. The `User` entity is not part of this model; lookups take the first match.
- `getAdoptionsByMonth` returns constant placeholder figures and is left out, as is the `requestsByMonth` entry of the adoption report.
- PetService.Service.DeletePet: the refusal to delete a pet that requests still name is a modelling of the database's foreign-key check on the required `pet_id` column. It is not a check in the service's code.
- A pet without a shelter (a `null` `shelter_id`, which makes the service's `getShelter().getId()` fail) is not modelled; every pet has an owner id.
- Concurrency is not modelled: service calls run one at a time. The appointment table has no unique key on `adoption_request_id`, so two concurrent bookings for one request could both pass the `getAppointment() != null` guard; `Store.Database.Valid`'s one-appointment-per-request clause holds only under this sequential reading.
- The `loading` and `updatingStatus` flags, badge colours and other presentation state are left out.

## Findings

| source | as written | input that shows it | evidently intended | confidence | as-written member | corrected member |
|---|---|---|---|---|---|---|
| pet-adoption-frontend/src/pages/Pets.jsx:134-149 | When some request for the pet is open, the button state looks at the first request for the pet, whatever its status, and shows "Adopt Again" if that one is COMPLETED | The user's requests for pet 5 are [COMPLETED, PENDING]; the pet is AVAILABLE | An open request always hides the button and is the one reported; the rest of the state, captions included, stays as written | not executed | PetsPage.ButtonShownDespiteOpenRequest | PetsPage.AdoptionButtonState |
| pet-adoption-frontend/src/pages/PetDetails.jsx:160-161 | The adopt button is shown when the first request for the pet is COMPLETED, even though a later request is open; the status card is then hidden | The same list, [COMPLETED, PENDING] for pet 5 | The button is shown only when no request for the pet is open | not executed | PetDetails.ButtonShownDespiteOpenRequestHere | PetDetails.IntendedButtonNeverBesideOpenRequest |
| pet-adoption-frontend/src/pages/Pets.jsx:116-120 | A shelter gets edit/delete only when `pet.shelterId === user?.id`, but the context's user object holds only the token and the e-mail | Any shelter viewing its own pet | A shelter manages the pets it owns | not executed | PetsPage.ShelterNeverEditsAsWritten | PetsPage.CanEditDeleteOwnPets |
