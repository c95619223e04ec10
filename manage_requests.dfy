/**
 * The shelter/admin "Manage Requests" page: the search filters over the
 * fetched requests, which actions the page offers on a request and on its
 * appointment, and the local list updates it makes once the server has
 * accepted a status change.
 */
module ManageRequests {
  import opened Common
  import opened Status
  import opened Dto
  import opened RequestView

  /**
   * The filter form. `status`, `petId` and `userId` are the typed/selected
   * text ("" when empty); a date field is absent when empty and otherwise
   * holds the timestamp of midnight of the chosen day.
   */
  datatype Filters = Filters(
    status: string, petId: string, userId: string,
    dateFrom: Option<int>, dateTo: Option<int>)

  const NoFilters := Filters("", "", "", None, None)

  const MS_PER_DAY := 86_400_000

  /** `toDate.setHours(23, 59, 59, 999)`: the last millisecond of the day holding `day`. */
  function EndOfDay(day: int): (e: int)
    ensures day <= e < day + MS_PER_DAY
    ensures (e + 1) % MS_PER_DAY == 0
  {
    day - day % MS_PER_DAY + MS_PER_DAY - 1
  }

  /** Some filter field is non-empty. */
  predicate HasActiveFilters(f: Filters)
  {
    f.status != "" || f.petId != "" || f.userId != "" || f.dateFrom.Some? || f.dateTo.Some?
  }

  /** The predicate `requests.filter(...)` applies during a search. */
  predicate Passes(r: RequestDto, f: Filters)
  {
    && (f.status != "" ==> RequestStatusName(r.status) == f.status)
    && (f.petId != "" ==> Includes(DecimalString(r.petId), f.petId))
    && (f.userId != "" ==> Includes(DecimalString(r.userId), f.userId))
    && (f.dateFrom.Some? ==> RequestTime(r) >= f.dateFrom.value)
    && (f.dateTo.Some? ==> RequestTime(r) <= EndOfDay(f.dateTo.value))
  }

  /** With every field empty, every request passes. */
  lemma NoActiveFilterPassesAll(r: RequestDto, f: Filters)
    requires !HasActiveFilters(f)
    ensures Passes(r, f)
  {
  }

  /**
   * `handleSearch`: with no active filter the whole list is shown as it is;
   * otherwise the requests that pass.
   */
  function Search(rs: seq<RequestDto>, f: Filters): (r: seq<RequestDto>)
    ensures forall i :: 0 <= i < |r| ==> Passes(r[i], f)
    ensures multiset(r) <= multiset(rs)
  {
    if !HasActiveFilters(f) then
      forall x ensures Passes(x, f) {
        NoActiveFilterPassesAll(x, f);
      }
      rs
    else Filter(rs, (r: RequestDto) => Passes(r, f))
  }

  /**
   * The early return for "no filters" agrees with filtering: the search
   * result is always exactly the passing requests, each as often as in the
   * list, in list order (searching a concatenation concatenates the results).
   */
  lemma SearchSelectsPassing(rs: seq<RequestDto>, more: seq<RequestDto>, f: Filters)
    ensures Search(rs, f) == Filter(rs, (r: RequestDto) => Passes(r, f))
    ensures forall x :: multiset(Search(rs, f))[x] == if Passes(x, f) then multiset(rs)[x] else 0
    ensures Search(rs + more, f) == Search(rs, f) + Search(more, f)
    ensures !HasActiveFilters(f) ==> Search(rs, f) == rs
  {
    var p := (r: RequestDto) => Passes(r, f);
    if !HasActiveFilters(f) {
      FilterAll(rs, p);
    }
    FilterAppend(rs, more, p);
  }

  /** A status filter keeps only requests whose status has that name. */
  lemma StatusFilterExact(rs: seq<RequestDto>, f: Filters)
    requires f.status != ""
    ensures forall i :: 0 <= i < |Search(rs, f)| ==> RequestStatusName(Search(rs, f)[i].status) == f.status
  {
  }

  /** Approve/Reject are offered on PENDING requests only. */
  predicate CanUpdateRequest(r: RequestDto)
  {
    r.status.Pending?
  }

  /** The request statuses the page offers to move a request to. */
  function RequestActions(r: RequestDto): (targets: set<RequestStatus>)
    ensures targets != {} <==> r.status == RequestStatus.Pending
    ensures targets <= {RequestStatus.Approved, Rejected}
  {
    if CanUpdateRequest(r) then {RequestStatus.Approved, Rejected} else {}
  }

  /** Appointments that are neither completed nor cancelled can be updated. */
  predicate CanUpdateAppointment(a: Option<AppointmentDto>)
  {
    a.Some? && !(a.value.status.Completed? || a.value.status.Cancelled?)
  }

  datatype ActionButton = ActionButton(caption: string, target: AppointmentStatus)

  datatype AppointmentActions = AppointmentActions(primary: ActionButton, secondary: Option<ActionButton>)

  /** `getNextAppointmentAction`: the buttons offered for the appointment's current status. */
  function NextAppointmentAction(a: Option<AppointmentDto>): Option<AppointmentActions>
  {
    if a.None? then None
    else match a.value.status
      case Pending => Some(AppointmentActions(
        ActionButton("Approve Appointment", AppointmentStatus.Approved),
        Some(ActionButton("Cancel Appointment", AppointmentStatus.Cancelled))))
      case Approved => Some(AppointmentActions(
        ActionButton("Mark In Progress", AppointmentStatus.InProgress), None))
      case InProgress => Some(AppointmentActions(
        ActionButton("Mark Completed", AppointmentStatus.Completed), None))
      case _ => None
  }

  /** The statuses the rendered buttons move an appointment to. */
  function OfferedTransitions(a: Option<AppointmentDto>): set<AppointmentStatus>
  {
    if CanUpdateAppointment(a) && NextAppointmentAction(a).Some? then
      var act := NextAppointmentAction(a).value;
      {act.primary.target} + (if act.secondary.Some? then {act.secondary.value.target} else {})
    else {}
  }

  /** The two render conditions coincide: the `canUpdateAppointment` test adds nothing. */
  lemma CanUpdateIffActionOffered(a: Option<AppointmentDto>)
    ensures CanUpdateAppointment(a) <==> NextAppointmentAction(a).Some?
  {
  }

  /**
   * The offered appointment transitions are exactly PENDING -> {APPROVED,
   * CANCELLED}, APPROVED -> IN_PROGRESS and IN_PROGRESS -> COMPLETED;
   * COMPLETED and CANCELLED offer nothing.
   */
  lemma OfferedTransitionTable(a: AppointmentDto)
    ensures OfferedTransitions(Some(a)) ==
      match a.status
      case Pending => {AppointmentStatus.Approved, AppointmentStatus.Cancelled}
      case Approved => {AppointmentStatus.InProgress}
      case InProgress => {AppointmentStatus.Completed}
      case Completed => {}
      case Cancelled => {}
  {
  }

  /** Position in the lifecycle; CANCELLED, like COMPLETED, is an end state. */
  function Rank(s: AppointmentStatus): nat
  {
    match s
    case Pending => 0
    case Approved => 1
    case InProgress => 2
    case Completed => 3
    case Cancelled => 4
  }

  /**
   * Offered transitions only move forward, so following offered buttons
   * can never return to an earlier status.
   */
  lemma OfferedTransitionsMoveForward(a: AppointmentDto, t: AppointmentStatus)
    requires t in OfferedTransitions(Some(a))
    ensures Rank(a.status) < Rank(t)
    ensures !a.status.Completed? && !a.status.Cancelled?
  {
    OfferedTransitionTable(a);
  }

  /** `prev.map(req => req.id === id ? { ...req, status } : req)`. */
  function WithRequestStatus(rs: seq<RequestDto>, id: nat, st: RequestStatus): (r: seq<RequestDto>)
    ensures |r| == |rs|
    ensures forall i :: 0 <= i < |rs| ==>
      r[i] == if rs[i].id == id then rs[i].(status := st) else rs[i]
  {
    seq(|rs|, i requires 0 <= i < |rs| => if rs[i].id == id then rs[i].(status := st) else rs[i])
  }

  /** `prev.map(appt => appt.id === id ? { ...appt, status } : appt)`. */
  function WithAppointmentStatus(appts: seq<AppointmentDto>, id: nat, st: AppointmentStatus): (r: seq<AppointmentDto>)
    ensures |r| == |appts|
    ensures forall i :: 0 <= i < |appts| ==>
      r[i] == if appts[i].id == id then appts[i].(status := st) else appts[i]
  {
    seq(|appts|, i requires 0 <= i < |appts| => if appts[i].id == id then appts[i].(status := st) else appts[i])
  }

  predicate UniqueRequestIds(rs: seq<RequestDto>)
  {
    forall i, j :: 0 <= i < j < |rs| ==> rs[i].id != rs[j].id
  }

  /**
   * With distinct ids, a local status update touches exactly one record,
   * and only its status: the other records, the length and the order are
   * kept; an id that is not in the list changes nothing.
   */
  lemma LocalUpdateTouchesOne(rs: seq<RequestDto>, k: nat, st: RequestStatus)
    requires UniqueRequestIds(rs) && k < |rs|
    ensures var r := WithRequestStatus(rs, rs[k].id, st);
      && r[k].status == st
      && r[k].(status := rs[k].status) == rs[k]
      && forall i :: 0 <= i < |rs| && i != k ==> r[i] == rs[i]
  {
  }

  lemma LocalUpdateUnknownId(rs: seq<RequestDto>, id: nat, st: RequestStatus)
    requires forall i :: 0 <= i < |rs| ==> rs[i].id != id
    ensures WithRequestStatus(rs, id, st) == rs
  {
  }

  /** `k` is the position of the first appointment with this id (`appointments.find`). */
  predicate FirstWithId(appts: seq<AppointmentDto>, id: nat, k: int)
  {
    0 <= k < |appts| && appts[k].id == id && forall j :: 0 <= j < k ==> appts[j].id != id
  }

  /** The page's state: the fetched lists, the filter form and the shown list. */
  class Page {
    var requests: seq<RequestDto>
    var filteredRequests: seq<RequestDto>
    var appointments: seq<AppointmentDto>
    var filters: Filters
    var isFiltered: bool

    constructor ()
      ensures requests == [] && filteredRequests == [] && appointments == []
      ensures filters == NoFilters && !isFiltered
    {
      requests, filteredRequests, appointments := [], [], [];
      filters, isFiltered := NoFilters, false;
    }

    /** `fetchRequests` after a successful response: sorted newest first and shown unfiltered. */
    method ReceiveRequests(fetched: seq<RequestDto>)
      modifies this
      ensures requests == SortNewestFirst(fetched) && filteredRequests == requests
      ensures NewestFirst(requests) && multiset(requests) == multiset(fetched)
      ensures appointments == old(appointments) && filters == old(filters) && isFiltered == old(isFiltered)
    {
      requests := SortNewestFirst(fetched);
      filteredRequests := requests;
    }

    /** `fetchAppointments` after a successful response. */
    method ReceiveAppointments(fetched: seq<AppointmentDto>)
      modifies this`appointments
      ensures appointments == fetched
    {
      appointments := fetched;
    }

    /** `handleFilterChange`: the form now holds `f`; nothing is searched yet. */
    method ChangeFilters(f: Filters)
      modifies this`filters
      ensures filters == f
    {
      filters := f;
    }

    /** `handleSearch`. */
    method RunSearch()
      modifies this`filteredRequests, this`isFiltered
      ensures filteredRequests == Search(requests, filters)
      ensures isFiltered == HasActiveFilters(filters)
    {
      SearchSelectsPassing(requests, [], filters);
      if !HasActiveFilters(filters) {
        filteredRequests := requests;
        isFiltered := false;
        return;
      }
      var f := filters;
      filteredRequests := Filter(requests, (r: RequestDto) => Passes(r, f));
      isFiltered := true;
    }

    /** `handleResetFilters`. */
    method ResetFilters()
      modifies this`filters, this`filteredRequests, this`isFiltered
      ensures filters == NoFilters && filteredRequests == requests && !isFiltered
    {
      filters := NoFilters;
      filteredRequests := requests;
      isFiltered := false;
    }

    /**
     * `handleStatusUpdate(id, status)`: when the server accepts the change,
     * both the fetched and the shown list get the new status on the record
     * with that id; when it refuses, nothing changes.
     */
    method StatusUpdate(id: nat, st: RequestStatus, serverAccepts: bool)
      modifies this`requests, this`filteredRequests
      ensures serverAccepts ==> requests == WithRequestStatus(old(requests), id, st)
      ensures serverAccepts ==> filteredRequests == WithRequestStatus(old(filteredRequests), id, st)
      ensures !serverAccepts ==> requests == old(requests) && filteredRequests == old(filteredRequests)
    {
      if serverAccepts {
        requests := WithRequestStatus(requests, id, st);
        filteredRequests := WithRequestStatus(filteredRequests, id, st);
      }
    }

    /**
     * `handleAppointmentStatusUpdate(id, status)`: when the server accepts,
     * the appointment gets the new status; when that status is COMPLETED and
     * the appointment is in the list, the page also issues a COMPLETED
     * update for the request the appointment belongs to (`requestAccepted`
     * is the server's answer to that second call).
     */
    method AppointmentStatusUpdate(id: nat, st: AppointmentStatus, serverAccepts: bool, requestAccepted: bool)
      returns (completedRequest: Option<nat>)
      modifies this`appointments, this`requests, this`filteredRequests
      ensures !serverAccepts ==> (appointments == old(appointments)
        && requests == old(requests) && filteredRequests == old(filteredRequests) && completedRequest.None?)
      ensures serverAccepts ==> appointments == WithAppointmentStatus(old(appointments), id, st)
      ensures completedRequest.Some? <==>
        serverAccepts && st.Completed? && exists a :: a in old(appointments) && a.id == id
      ensures completedRequest.Some? ==>
        exists k :: FirstWithId(old(appointments), id, k)
          && old(appointments)[k].adoptionRequestId == completedRequest.value
      ensures completedRequest.Some? && requestAccepted ==>
        (requests == WithRequestStatus(old(requests), completedRequest.value, RequestStatus.Completed)
        && filteredRequests == WithRequestStatus(old(filteredRequests), completedRequest.value, RequestStatus.Completed))
      ensures completedRequest.None? || !requestAccepted ==>
        (requests == old(requests) && filteredRequests == old(filteredRequests))
    {
      completedRequest := None;
      if !serverAccepts {
        return;
      }
      var before := appointments;
      appointments := WithAppointmentStatus(appointments, id, st);
      if st.Completed? {
        var found := FindFirst(before, (a: AppointmentDto) => a.id == id);
        if found.Some? {
          var appointment := before[found.value];
          assert FirstWithId(before, id, found.value);
          completedRequest := Some(appointment.adoptionRequestId);
          StatusUpdate(appointment.adoptionRequestId, RequestStatus.Completed, requestAccepted);
        } else {
          assert forall a :: a in before ==> a.id != id;
        }
      }
    }
  }

  /**
   * After the two calls of a visit completion both succeed, the request the
   * appointment belongs to reads COMPLETED in the page's list.
   */
  lemma CompletionMarksRequest(rs: seq<RequestDto>, requestId: nat, k: nat)
    requires k < |rs| && rs[k].id == requestId
    ensures WithRequestStatus(rs, requestId, RequestStatus.Completed)[k].status == RequestStatus.Completed
    ensures RequestTimeline(WithRequestStatus(rs, requestId, RequestStatus.Completed)[k], []).adopted == CompletedStep
  {
  }
}
