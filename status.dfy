/**
 * The status vocabularies of the adoption lifecycle and the account roles.
 *
 * An adoption request's status is a free string on the server (any text a
 * manager sends is stored), so it is modelled by the six names the system
 * uses plus a catch-all that keeps any other text. An appointment's status
 * is a Java enum of five values; an account's role is a Java enum of three.
 */
module Status {
  import opened Common

  datatype RequestStatus =
    | Pending | Approved | InProgress | Completed | Rejected | Cancelled
    | Unrecognized(text: string)

  /** The wire name of a request status. */
  function RequestStatusName(s: RequestStatus): string
  {
    match s
    case Pending => "PENDING"
    case Approved => "APPROVED"
    case InProgress => "IN_PROGRESS"
    case Completed => "COMPLETED"
    case Rejected => "REJECTED"
    case Cancelled => "CANCELLED"
    case Unrecognized(t) => t
  }

  predicate IsKnownRequestStatusName(text: string)
  {
    text in {"PENDING", "APPROVED", "IN_PROGRESS", "COMPLETED", "REJECTED", "CANCELLED"}
  }

  /** A status value that parsing can produce: the catch-all never holds a known name. */
  predicate Canonical(s: RequestStatus)
  {
    s.Unrecognized? ==> !IsKnownRequestStatusName(s.text)
  }

  /** Reads the stored text of a request status; the text is kept exactly. */
  function ParseRequestStatus(text: string): (s: RequestStatus)
    ensures Canonical(s)
    ensures RequestStatusName(s) == text
    ensures s.Unrecognized? <==> !IsKnownRequestStatusName(text)
  {
    if text == "PENDING" then RequestStatus.Pending
    else if text == "APPROVED" then RequestStatus.Approved
    else if text == "IN_PROGRESS" then RequestStatus.InProgress
    else if text == "COMPLETED" then RequestStatus.Completed
    else if text == "REJECTED" then Rejected
    else if text == "CANCELLED" then RequestStatus.Cancelled
    else Unrecognized(text)
  }

  /** Naming then parsing gives back every canonical status. */
  lemma ParseRequestStatusName(s: RequestStatus)
    requires Canonical(s)
    ensures ParseRequestStatus(RequestStatusName(s)) == s
  {
  }

  /** Two canonical statuses are equal exactly when their names are. */
  lemma RequestStatusNameInjective(s: RequestStatus, t: RequestStatus)
    requires Canonical(s) && Canonical(t)
    ensures s == t <==> RequestStatusName(s) == RequestStatusName(t)
  {
    ParseRequestStatusName(s);
    ParseRequestStatusName(t);
  }

  /**
   * Appointment.Status. Its constructor names repeat those of RequestStatus,
   * so a value is written `AppointmentStatus.Pending` where the type is not
   * already known.
   */
  datatype AppointmentStatus = Pending | Approved | InProgress | Completed | Cancelled

  /** The Java enum name (`Status.name()`) of an appointment status. */
  function AppointmentStatusName(s: AppointmentStatus): string
  {
    match s
    case Pending => "PENDING"
    case Approved => "APPROVED"
    case InProgress => "IN_PROGRESS"
    case Completed => "COMPLETED"
    case Cancelled => "CANCELLED"
  }

  /**
   * `Appointment.Status.valueOf(text.toUpperCase())`: the upper-cased text must
   * be exactly one of the five enum names, otherwise there is no value.
   */
  function ParseAppointmentStatus(text: string): (r: Option<AppointmentStatus>)
    ensures r.Some? ==> AppointmentStatusName(r.value) == Upper(text)
    ensures r.None? ==> forall s :: AppointmentStatusName(s) != Upper(text)
  {
    var u := Upper(text);
    if u == "PENDING" then Some(AppointmentStatus.Pending)
    else if u == "APPROVED" then Some(AppointmentStatus.Approved)
    else if u == "IN_PROGRESS" then Some(AppointmentStatus.InProgress)
    else if u == "COMPLETED" then Some(AppointmentStatus.Completed)
    else if u == "CANCELLED" then Some(AppointmentStatus.Cancelled)
    else None
  }

  /** Every enum name parses back to its value, in any letter case. */
  lemma ParseAppointmentStatusName(s: AppointmentStatus)
    ensures ParseAppointmentStatus(AppointmentStatusName(s)) == Some(s)
  {
    var n := AppointmentStatusName(s);
    assert Upper(n) == n;
  }

  /** The lower-case spelling of an enum name parses to the same value. */
  lemma ParseAppointmentStatusLower(s: AppointmentStatus)
    ensures ParseAppointmentStatus(Lower(AppointmentStatusName(s))) == Some(s)
  {
    var n := AppointmentStatusName(s);
    assert forall i :: 0 <= i < |n| ==> !('a' <= n[i] <= 'z');
    UpperOfLower(n);
    ParseAppointmentStatusName(s);
    ParseAppointmentStatusSameUpper(Lower(n), n);
  }

  /** Parsing sees only the upper-cased text. */
  lemma ParseAppointmentStatusSameUpper(a: string, b: string)
    requires Upper(a) == Upper(b)
    ensures ParseAppointmentStatus(a) == ParseAppointmentStatus(b)
  {
  }

  /** User.Role: USER, SHELTER, ADMIN. */
  datatype Role = UserRole | ShelterRole | AdminRole

  /** The Java enum name (`Role.name()`). */
  function RoleName(r: Role): string
  {
    match r
    case UserRole => "USER"
    case ShelterRole => "SHELTER"
    case AdminRole => "ADMIN"
  }

  /** `User.Role.valueOf(text.toUpperCase())`. */
  function ParseRole(text: string): (r: Option<Role>)
    ensures r.Some? ==> RoleName(r.value) == Upper(text)
    ensures r.None? ==> forall role :: RoleName(role) != Upper(text)
  {
    var u := Upper(text);
    if u == "USER" then Some(UserRole)
    else if u == "SHELTER" then Some(ShelterRole)
    else if u == "ADMIN" then Some(AdminRole)
    else None
  }
}
