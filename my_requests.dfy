/**
 * The adopter's "My Requests" page: the status filter, the per-status
 * counts, when booking an appointment is offered, and the hint shown for
 * each request.
 */
module MyRequests {
  import opened Common
  import opened Status
  import opened Dto
  import opened RequestView

  const ALL := "ALL"

  /** The request has the status the filter names. */
  predicate HasStatusName(r: RequestDto, name: string)
  {
    RequestStatusName(r.status) == name
  }

  /** `filterRequests`: "ALL" shows every request, any other value those with that status. */
  function FilterByStatus(rs: seq<RequestDto>, statusFilter: string): seq<RequestDto>
  {
    if statusFilter == ALL then rs else Filter(rs, (r: RequestDto) => HasStatusName(r, statusFilter))
  }

  /** What the filter keeps: exactly the requests with the chosen status, in order. */
  lemma FilterByStatusSelects(rs: seq<RequestDto>, statusFilter: string)
    requires statusFilter != ALL
    ensures forall i :: 0 <= i < |FilterByStatus(rs, statusFilter)| ==>
      RequestStatusName(FilterByStatus(rs, statusFilter)[i].status) == statusFilter
    ensures forall x ::
      multiset(FilterByStatus(rs, statusFilter))[x] == if HasStatusName(x, statusFilter) then multiset(rs)[x] else 0
  {
  }

  /** Number of requests with the given status name. */
  function CountStatus(rs: seq<RequestDto>, name: string): nat
  {
    Count(rs, (r: RequestDto) => HasStatusName(r, name))
  }

  /** One entry of the status drop-down: its value, its caption and its count. */
  datatype StatusOption = StatusOption(value: string, caption: string, count: nat)

  /** The drop-down's values and captions, in their order. */
  const StatusOptionNames: seq<(string, string)> := [
    (ALL, "All Requests"), ("PENDING", "Pending"), ("APPROVED", "Approved"),
    ("IN_PROGRESS", "In Progress"), ("COMPLETED", "Completed"),
    ("REJECTED", "Rejected"), ("CANCELLED", "Cancelled")]

  /** `getStatusCounts`: every drop-down entry with its count. */
  function StatusCounts(rs: seq<RequestDto>): (opts: seq<StatusOption>)
    ensures |opts| == |StatusOptionNames|
    ensures forall i :: 0 <= i < |opts| ==>
      opts[i].value == StatusOptionNames[i].0 && opts[i].caption == StatusOptionNames[i].1
  {
    seq(|StatusOptionNames|, i requires 0 <= i < |StatusOptionNames| =>
      var (v, c) := StatusOptionNames[i];
      StatusOption(v, c, if v == ALL then |rs| else CountStatus(rs, v)))
  }

  /** Each entry's count is the number of cards shown when that entry is selected. */
  lemma CountMatchesShownList(rs: seq<RequestDto>)
    ensures forall o :: o in StatusCounts(rs) ==> o.count == |FilterByStatus(rs, o.value)|
  {
  }

  /** The request's status is none of the six names the page knows. */
  predicate Unlisted(r: RequestDto)
  {
    r.status.Unrecognized? && !IsKnownRequestStatusName(r.status.text)
  }

  /** The six status counts plus the number of requests with some other status. */
  function Tally(rs: seq<RequestDto>): nat
  {
    CountStatus(rs, "PENDING") + CountStatus(rs, "APPROVED") + CountStatus(rs, "IN_PROGRESS")
      + CountStatus(rs, "COMPLETED") + CountStatus(rs, "REJECTED") + CountStatus(rs, "CANCELLED")
      + Count(rs, Unlisted)
  }

  lemma TallyAppend(a: seq<RequestDto>, b: seq<RequestDto>)
    ensures Tally(a + b) == Tally(a) + Tally(b)
  {
    CountAppend(a, b, (r: RequestDto) => HasStatusName(r, "PENDING"));
    CountAppend(a, b, (r: RequestDto) => HasStatusName(r, "APPROVED"));
    CountAppend(a, b, (r: RequestDto) => HasStatusName(r, "IN_PROGRESS"));
    CountAppend(a, b, (r: RequestDto) => HasStatusName(r, "COMPLETED"));
    CountAppend(a, b, (r: RequestDto) => HasStatusName(r, "REJECTED"));
    CountAppend(a, b, (r: RequestDto) => HasStatusName(r, "CANCELLED"));
    CountAppend(a, b, Unlisted);
  }

  /** A single request falls in exactly one of the seven classes. */
  lemma TallySingle(r: RequestDto)
    ensures Tally([r]) == 1
  {
    assert [r][1..] == [];
  }

  /**
   * The six status counts and the requests with some other stored status
   * add up to the "All" count: every request is counted exactly once.
   */
  lemma {:induction false} StatusCountsPartition(rs: seq<RequestDto>)
    ensures Tally(rs) == |rs|
  {
    if rs != [] {
      var head, tail := [rs[0]], rs[1..];
      assert rs == head + tail;
      TallyAppend(head, tail);
      TallySingle(rs[0]);
      StatusCountsPartition(tail);
    }
  }

  /** `canBookAppointment`: the request is approved and has no appointment yet. */
  predicate CanBookAppointment(r: RequestDto, appt: Option<AppointmentDto>)
  {
    r.status.Approved? && appt.None?
  }

  /** The hint `getNextAction` shows under a request. */
  datatype NextAction =
    | WaitingForApproval
    | ReadyToBook
    | RequestRejected
    | AdoptionCompleted
    | AppointmentStatusShown(status: AppointmentStatus)
    | Processing

  /** `getNextAction(request, appointment)`. */
  function GetNextAction(r: RequestDto, appt: Option<AppointmentDto>): NextAction
  {
    if appt.Some? then AppointmentStatusShown(appt.value.status)
    else match r.status
      case Pending => WaitingForApproval
      case Approved => ReadyToBook
      case Rejected => RequestRejected
      case Completed => AdoptionCompleted
      case _ => Processing
  }

  /** The message text of a hint. */
  function NextActionMessage(a: NextAction): string
  {
    match a
    case WaitingForApproval => "Waiting for approval"
    case ReadyToBook => "Ready to book appointment"
    case RequestRejected => "Request was rejected"
    case AdoptionCompleted => "Adoption completed!"
    case AppointmentStatusShown(s) => "Appointment: " + AppointmentStatusName(s)
    case Processing => "Processing..."
  }

  /**
   * The "Ready to book" hint and the Book Appointment button appear
   * together, and an appointment's own status replaces the hint whenever
   * one exists.
   */
  lemma BookHintIffBookButton(r: RequestDto, appt: Option<AppointmentDto>)
    ensures GetNextAction(r, appt) == ReadyToBook <==> CanBookAppointment(r, appt)
    ensures appt.Some? <==> GetNextAction(r, appt).AppointmentStatusShown?
  {
  }

  /**
   * On the page, booking is offered for a request exactly when it is
   * approved and no appointment in the fetched list is linked to it, so a
   * request whose appointment has arrived is never offered a second one.
   */
  lemma BookingOfferedOnce(r: RequestDto, appts: seq<AppointmentDto>)
    ensures CanBookAppointment(r, FindAppointment(appts, r.id)) <==>
      r.status.Approved? && forall a :: a in appts ==> a.adoptionRequestId != r.id
  {
  }

  /** The page's state: fetched requests and appointments, the selected filter and the shown list. */
  class Page {
    var requests: seq<RequestDto>
    var filteredRequests: seq<RequestDto>
    var appointments: seq<AppointmentDto>
    var statusFilter: string

    /** The shown list is the fetched list under the selected filter. */
    predicate Valid()
      reads this
    {
      filteredRequests == FilterByStatus(requests, statusFilter)
    }

    constructor ()
      ensures requests == [] && filteredRequests == [] && appointments == [] && statusFilter == ALL
      ensures Valid()
    {
      requests, filteredRequests, appointments, statusFilter := [], [], [], ALL;
    }

    /**
     * `fetchRequests` then the effect on `[requests, statusFilter]`: the list is
     * sorted newest first; the shown list is refreshed only when the fetched
     * list is non-empty. The page fetches once, from the empty initial list,
     * so the shown list stays consistent.
     */
    method ReceiveRequests(fetched: seq<RequestDto>)
      modifies this`requests, this`filteredRequests
      ensures requests == SortNewestFirst(fetched)
      ensures |fetched| > 0 ==> filteredRequests == FilterByStatus(requests, statusFilter)
      ensures |fetched| == 0 ==> filteredRequests == old(filteredRequests)
      ensures old(Valid()) && (|fetched| > 0 || old(requests) == []) ==> Valid()
    {
      requests := SortNewestFirst(fetched);
      if |requests| > 0 {
        filteredRequests := FilterByStatus(requests, statusFilter);
      }
    }

    /** `fetchAppointments`, also run again after an appointment is booked. */
    method ReceiveAppointments(fetched: seq<AppointmentDto>)
      modifies this`appointments
      ensures appointments == fetched
    {
      appointments := fetched;
    }

    /** Choosing a drop-down entry (or "Show all", which selects "ALL"). */
    method SelectFilter(value: string)
      modifies this`statusFilter, this`filteredRequests
      ensures statusFilter == value
      ensures |requests| > 0 ==> filteredRequests == FilterByStatus(requests, value)
      ensures |requests| == 0 ==> filteredRequests == old(filteredRequests)
      ensures old(Valid()) ==> Valid()
    {
      statusFilter := value;
      if |requests| > 0 {
        filteredRequests := FilterByStatus(requests, statusFilter);
      }
    }
  }
}
