/**
 * The server's appointment service: booking a visit for an approved
 * request, listing a shelter's appointments and changing an appointment's
 * status.
 */
module AppointmentService {
  import opened Common
  import opened Status
  import opened Dto
  import opened Store
  import ManageRequests

  /** The fields of a booking the client sends. */
  datatype BookingForm = BookingForm(
    shelterId: nat, adoptionRequestId: nat, visitorName: string,
    numberOfVisitors: int, appointmentDateTime: int)

  /** `mapToDTO`: every column, the related rows by id. */
  function ToDto(a: Appointment): (d: AppointmentDto)
    ensures d.id == a.id && d.userId == a.userId && d.shelterId == a.shelterId
    ensures d.adoptionRequestId == a.adoptionRequestId && d.status == a.status
    ensures d.visitorName == a.visitorName && d.numberOfVisitors == a.numberOfVisitors
    ensures d.appointmentDateTime == a.appointmentDateTime
  {
    AppointmentDto(a.id, a.userId, a.shelterId, a.adoptionRequestId,
      a.visitorName, a.numberOfVisitors, a.appointmentDateTime, a.status)
  }

  /** Every booking guard passes. */
  predicate BookingAllowed(users: seq<User>, requests: seq<AdoptionRequest>, appointments: seq<Appointment>,
                           form: BookingForm, username: string)
  {
    && UserByEmail(users, username).Some?
    && UserById(users, form.shelterId).Some?
    && RequestById(requests, form.adoptionRequestId).Some?
    && RequestById(requests, form.adoptionRequestId).value.userId == UserByEmail(users, username).value.id
    && RequestById(requests, form.adoptionRequestId).value.status == "APPROVED"
    && !HasAppointment(appointments, form.adoptionRequestId)
  }

  /**
   * The guards of `createAppointment`, in the order they run: the first
   * that fails gives the error. The shelter is only looked up; its role
   * and its relation to the pet are not checked.
   */
  function BookingCheck(users: seq<User>, requests: seq<AdoptionRequest>, appointments: seq<Appointment>,
                        form: BookingForm, username: string): (e: Option<ServiceError>)
    ensures e.None? <==> BookingAllowed(users, requests, appointments, form, username)
    ensures UserByEmail(users, username).None? ==> e == Some(ResourceNotFound("User not found"))
    ensures UserByEmail(users, username).Some? && UserById(users, form.shelterId).None? ==>
      e == Some(ResourceNotFound("Shelter not found"))
    ensures e.Some? && e.value.Unauthorized? ==>
      RequestById(requests, form.adoptionRequestId).Some?
      && RequestById(requests, form.adoptionRequestId).value.userId != UserByEmail(users, username).value.id
    ensures e.Some? && e.value.IllegalArgument? ==>
      RequestById(requests, form.adoptionRequestId).Some?
      && (RequestById(requests, form.adoptionRequestId).value.status != "APPROVED"
          || HasAppointment(appointments, form.adoptionRequestId))
  {
    match UserByEmail(users, username)
    case None => Some(ResourceNotFound("User not found"))
    case Some(user) =>
      if UserById(users, form.shelterId).None? then Some(ResourceNotFound("Shelter not found"))
      else match RequestById(requests, form.adoptionRequestId)
        case None => Some(ResourceNotFound("Adoption request not found"))
        case Some(request) =>
          if request.userId != user.id then
            Some(Unauthorized("You can only book appointments for your own adoption requests"))
          else if request.status != "APPROVED" then
            Some(IllegalArgument("Appointments can only be booked for approved adoption requests"))
          else if HasAppointment(appointments, request.id) then
            Some(IllegalArgument("An appointment already exists for this adoption request"))
          else None
  }

  /** The appointment a successful booking saves. */
  function NewAppointment(id: nat, userId: nat, form: BookingForm): (a: Appointment)
    ensures a.status == AppointmentStatus.Pending && a.id == id && a.userId == userId
    ensures a.shelterId == form.shelterId && a.adoptionRequestId == form.adoptionRequestId
    ensures a.visitorName == form.visitorName && a.numberOfVisitors == form.numberOfVisitors
    ensures a.appointmentDateTime == form.appointmentDateTime
  {
    Appointment(id, userId, form.shelterId, form.adoptionRequestId,
      form.visitorName, form.numberOfVisitors, form.appointmentDateTime, AppointmentStatus.Pending)
  }

  /**
   * Once a booking succeeds, the same request cannot be booked again:
   * every further attempt fails, so a request has at most one appointment.
   */
  lemma SecondBookingRejected(users: seq<User>, requests: seq<AdoptionRequest>, appointments: seq<Appointment>,
                              form: BookingForm, form2: BookingForm, username: string, username2: string, id: nat)
    requires BookingAllowed(users, requests, appointments, form, username)
    requires form2.adoptionRequestId == form.adoptionRequestId
    ensures var a := NewAppointment(id, UserByEmail(users, username).value.id, form);
      BookingCheck(users, requests, appointments + [a], form2, username2).Some?
  {
    var a := NewAppointment(id, UserByEmail(users, username).value.id, form);
    assert a in appointments + [a];
  }

  /** `updateAppointmentStatus` may be called by an admin or by the appointment's shelter. */
  predicate MayUpdate(user: User, a: Appointment)
  {
    user.role == AdminRole || a.shelterId == user.id
  }

  /**
   * The guards of `updateAppointmentStatus`, in order; on success the
   * parsed status. Any valid status is accepted from any current status.
   */
  function StatusUpdateCheck(users: seq<User>, appointments: seq<Appointment>, id: nat, status: string,
                             username: string): (r: Result<AppointmentStatus, ServiceError>)
    ensures r.Ok? <==>
      && AppointmentById(appointments, id).Some? && UserByEmail(users, username).Some?
      && MayUpdate(UserByEmail(users, username).value, AppointmentById(appointments, id).value)
      && ParseAppointmentStatus(status).Some?
    ensures r.Ok? ==> AppointmentStatusName(r.value) == Upper(status)
  {
    match AppointmentById(appointments, id)
    case None => Err(ResourceNotFound("Appointment not found"))
    case Some(a) =>
      match UserByEmail(users, username)
      case None => Err(ResourceNotFound("User not found"))
      case Some(user) =>
        if !MayUpdate(user, a) then Err(Unauthorized("You are not authorized to update this appointment"))
        else match ParseAppointmentStatus(status)
          case None => Err(IllegalArgument("Invalid appointment status: " + status))
          case Some(s) => Ok(s)
  }

  /** The appointment table with the status of the row with this id replaced. */
  function WithStatus(appointments: seq<Appointment>, id: nat, s: AppointmentStatus): (r: seq<Appointment>)
    ensures |r| == |appointments|
    ensures forall i :: 0 <= i < |r| ==>
      r[i] == if appointments[i].id == id then appointments[i].(status := s) else appointments[i]
  {
    seq(|appointments|, i requires 0 <= i < |appointments| =>
      if appointments[i].id == id then appointments[i].(status := s) else appointments[i])
  }

  /**
   * The server does not enforce the lifecycle order: for an authorized
   * caller every one of the five statuses is accepted, in any letter case,
   * whatever the appointment's current status.
   */
  lemma ServerAcceptsAnyTransition(users: seq<User>, appointments: seq<Appointment>, id: nat,
                                   username: string, target: AppointmentStatus)
    requires AppointmentById(appointments, id).Some? && UserByEmail(users, username).Some?
    requires MayUpdate(UserByEmail(users, username).value, AppointmentById(appointments, id).value)
    ensures StatusUpdateCheck(users, appointments, id, AppointmentStatusName(target), username) == Ok(target)
    ensures StatusUpdateCheck(users, appointments, id, Lower(AppointmentStatusName(target)), username) == Ok(target)
  {
    ParseAppointmentStatusName(target);
    ParseAppointmentStatusLower(target);
  }

  /**
   * In particular the server accepts moving a COMPLETED appointment back to
   * PENDING, a move the management page never offers.
   */
  lemma ServerAcceptsBackwardMove(admin: User, a: Appointment)
    requires admin.role == AdminRole && a.status == AppointmentStatus.Completed
    ensures StatusUpdateCheck([admin], [a], a.id, "PENDING", admin.email) == Ok(AppointmentStatus.Pending)
    ensures AppointmentStatus.Pending !in ManageRequests.OfferedTransitions(Some(ToDto(a)))
  {
    ServerAcceptsAnyTransition([admin], [a], a.id, admin.email, AppointmentStatus.Pending);
    ManageRequests.OfferedTransitionTable(ToDto(a));
  }

  /** The DTOs of a list of appointments, one for one and in order. */
  function ToDtos(s: seq<Appointment>): (r: seq<AppointmentDto>)
    ensures |r| == |s| && forall i :: 0 <= i < |s| ==> r[i] == ToDto(s[i])
  {
    seq(|s|, i requires 0 <= i < |s| => ToDto(s[i]))
  }

  /** Mapping to DTOs loses no appointment: an appointment's DTO is listed exactly when it is. */
  lemma ToDtosMembership(s: seq<Appointment>, a: Appointment)
    ensures ToDto(a) in ToDtos(s) <==> a in s
  {
    if ToDto(a) in ToDtos(s) {
      var i :| 0 <= i < |s| && ToDtos(s)[i] == ToDto(a);
      assert s[i] == a;
    }
    if a in s {
      var i :| 0 <= i < |s| && s[i] == a;
      assert ToDtos(s)[i] == ToDto(a);
    }
  }

  /** `getUserAppointments`: the appointments booked by the caller, in table order. */
  function UserAppointments(users: seq<User>, appointments: seq<Appointment>, username: string)
    : (r: Result<seq<AppointmentDto>, ServiceError>)
    ensures r.Err? <==> UserByEmail(users, username).None?
    ensures r.Err? ==> r.error == ResourceNotFound("User not found")
    ensures r.Ok? ==> forall a :: a in appointments ==>
      (ToDto(a) in r.value <==> a.userId == UserByEmail(users, username).value.id)
    ensures r.Ok? ==> forall d :: d in r.value ==> d.userId == UserByEmail(users, username).value.id
  {
    match UserByEmail(users, username)
    case None => Err(ResourceNotFound("User not found"))
    case Some(user) =>
      var p := (a: Appointment) => a.userId == user.id;
      var mine := Filter(appointments, p);
      assert forall a :: a in appointments ==> (ToDto(a) in ToDtos(mine) <==> a.userId == user.id) by {
        forall a | a in appointments ensures ToDto(a) in ToDtos(mine) <==> a.userId == user.id {
          ToDtosMembership(mine, a);
          FilterMembership(appointments, p, a);
        }
      }
      Ok(ToDtos(mine))
  }

  /**
   * `getShelterAppointments`: shelters and admins get the appointments
   * naming them as the shelter; other roles are refused.
   */
  function ShelterAppointments(users: seq<User>, appointments: seq<Appointment>, username: string)
    : (r: Result<seq<AppointmentDto>, ServiceError>)
    ensures UserByEmail(users, username).None? ==> r == Err(ResourceNotFound("Shelter not found"))
    ensures r.Ok? <==> UserByEmail(users, username).Some? && UserByEmail(users, username).value.role != UserRole
    ensures r.Ok? ==> forall a :: a in appointments ==>
      (ToDto(a) in r.value <==> a.shelterId == UserByEmail(users, username).value.id)
    ensures r.Ok? ==> forall d :: d in r.value ==> d.shelterId == UserByEmail(users, username).value.id
  {
    match UserByEmail(users, username)
    case None => Err(ResourceNotFound("Shelter not found"))
    case Some(shelter) =>
      if shelter.role != ShelterRole && shelter.role != AdminRole then
        assert shelter.role == UserRole;
        Err(Unauthorized("Only shelters and admins can view shelter appointments"))
      else
        var p := (a: Appointment) => a.shelterId == shelter.id;
        var mine := Filter(appointments, p);
        assert forall a :: a in appointments ==> (ToDto(a) in ToDtos(mine) <==> a.shelterId == shelter.id) by {
          forall a | a in appointments ensures ToDto(a) in ToDtos(mine) <==> a.shelterId == shelter.id {
            ToDtosMembership(mine, a);
            FilterMembership(appointments, p, a);
          }
        }
        Ok(ToDtos(mine))
  }

  /** The service object over the shared repositories. */
  class Service {
    const db: Database

    constructor (db: Database)
      ensures this.db == db
    {
      this.db := db;
    }

    /**
     * `createAppointment`: a failed guard changes nothing; otherwise one
     * PENDING appointment with the next id is saved and returned.
     */
    method CreateAppointment(form: BookingForm, username: string) returns (r: Result<AppointmentDto, ServiceError>)
      requires db.Valid()
      modifies db`appointments, db`nextAppointmentId
      ensures db.Valid()
      ensures var e := BookingCheck(db.users, db.requests, old(db.appointments), form, username);
        && (e.Some? ==> (r == Err(e.value)
              && db.appointments == old(db.appointments) && db.nextAppointmentId == old(db.nextAppointmentId)))
        && (e.None? ==>
              var a := NewAppointment(old(db.nextAppointmentId), UserByEmail(db.users, username).value.id, form);
              && db.appointments == old(db.appointments) + [a]
              && db.nextAppointmentId == old(db.nextAppointmentId) + 1
              && r == Ok(ToDto(a)))
    {
      var e := BookingCheck(db.users, db.requests, db.appointments, form, username);
      if e.Some? {
        return Err(e.value);
      }
      var user := UserByEmail(db.users, username).value;
      var a := NewAppointment(db.nextAppointmentId, user.id, form);
      FreshIdsAppend(db.appointments, (x: Appointment) => x.id, db.nextAppointmentId, a);
      AppendKeepsOneAppointment(db.appointments, a);
      db.appointments := db.appointments + [a];
      db.nextAppointmentId := db.nextAppointmentId + 1;
      r := Ok(ToDto(a));
    }

    /**
     * `updateAppointmentStatus`: a failed guard changes nothing; otherwise
     * only the status of that appointment changes.
     */
    method UpdateAppointmentStatus(id: nat, status: string, username: string)
      returns (r: Result<AppointmentDto, ServiceError>)
      requires db.Valid()
      modifies db`appointments
      ensures db.Valid()
      ensures var c := StatusUpdateCheck(db.users, old(db.appointments), id, status, username);
        && (c.Err? ==> r == Err(c.error) && db.appointments == old(db.appointments))
        && (c.Ok? ==> (db.appointments == WithStatus(old(db.appointments), id, c.value)
              && r == Ok(ToDto(AppointmentById(old(db.appointments), id).value.(status := c.value)))))
    {
      var c := StatusUpdateCheck(db.users, db.appointments, id, status, username);
      if c.Err? {
        return Err(c.error);
      }
      var before := db.appointments;
      var a := AppointmentById(before, id).value;
      db.appointments := WithStatus(before, id, c.value);
      FreshIdsSameIds(before, db.appointments, (x: Appointment) => x.id, db.nextAppointmentId);
      r := Ok(ToDto(a.(status := c.value)));
    }
  }

  /** Adding an appointment for a request that has none keeps requests to one appointment each. */
  lemma AppendKeepsOneAppointment(appointments: seq<Appointment>, a: Appointment)
    requires AtMostOneAppointmentPerRequest(appointments) && !HasAppointment(appointments, a.adoptionRequestId)
    ensures AtMostOneAppointmentPerRequest(appointments + [a])
  {
    var s := appointments + [a];
    forall i, j | 0 <= i < j < |s| ensures s[i].adoptionRequestId != s[j].adoptionRequestId {
      if j == |appointments| {
        assert s[i] in appointments;
      }
    }
  }
}
