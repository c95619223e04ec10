/**
 * The client-side reconciliation of the two independently fetched lists
 * (adoption requests and appointments), shared by the "My Requests" and
 * "Manage Requests" pages: the appointment lookup by `adoptionRequestId`,
 * the five-step process timeline, and the newest-first ordering of fetched
 * requests.
 */
module RequestView {
  import opened Common
  import opened Status
  import opened Dto

  /**
   * `appointments.find(a => a.adoptionRequestId === requestId)`: the first
   * appointment linked to the request, or none.
   */
  function FindAppointment(appts: seq<AppointmentDto>, requestId: nat): (r: Option<AppointmentDto>)
    ensures r.None? <==> forall a :: a in appts ==> a.adoptionRequestId != requestId
    ensures r.Some? ==> IsFirstLinked(appts, requestId, r.value)
  {
    match FindFirst(appts, (a: AppointmentDto) => a.adoptionRequestId == requestId)
    case None => None
    case Some(i) => Some(appts[i])
  }

  /** `a` is the first element of `appts` whose `adoptionRequestId` is `requestId`. */
  ghost predicate IsFirstLinked(appts: seq<AppointmentDto>, requestId: nat, a: AppointmentDto)
  {
    exists k :: 0 <= k < |appts| && appts[k] == a && FirstLinkedAt(appts, requestId, k)
  }

  predicate FirstLinkedAt(appts: seq<AppointmentDto>, requestId: nat, k: int)
  {
    && 0 <= k < |appts|
    && appts[k].adoptionRequestId == requestId
    && forall j :: 0 <= j < k ==> appts[j].adoptionRequestId != requestId
  }

  lemma FirstLinkedUnique(appts: seq<AppointmentDto>, requestId: nat, k: int, k': int)
    requires FirstLinkedAt(appts, requestId, k) && FirstLinkedAt(appts, requestId, k')
    ensures k == k'
  {
  }

  /** The three CSS classes a timeline step can carry. */
  datatype StepClass = CompletedStep | ActiveStep | UpcomingStep

  /** Steps: submitted, approved, appointment scheduled, visit in progress, adoption completed. */
  datatype Timeline = Timeline(
    submitted: StepClass, approved: StepClass, scheduled: StepClass,
    visit: StepClass, adopted: StepClass)

  function BuildTimeline(r: RequestDto, appt: Option<AppointmentDto>): Timeline
  {
    Timeline(
      if !r.status.Pending? then CompletedStep else ActiveStep,
      if r.status.Approved? || r.status.InProgress? || r.status.Completed? then CompletedStep
      else if r.status.Pending? then UpcomingStep
      else ActiveStep,
      if appt.Some? then CompletedStep else UpcomingStep,
      if appt.Some? && (appt.value.status.InProgress? || appt.value.status.Completed?) then CompletedStep
      else if appt.Some? then ActiveStep
      else UpcomingStep,
      if r.status.Completed? then CompletedStep else UpcomingStep)
  }

  /** The timeline a page renders for a request, after joining it with the appointments. */
  function RequestTimeline(r: RequestDto, appts: seq<AppointmentDto>): Timeline
  {
    BuildTimeline(r, FindAppointment(appts, r.id))
  }

  /**
   * The per-step rules of the joined timeline: step 1 is completed iff the
   * request has left PENDING; step 2 is completed for APPROVED, IN_PROGRESS
   * and COMPLETED and upcoming exactly for PENDING; step 3 is completed iff some
   * appointment is linked to the request, step 4 iff the first linked
   * appointment is in progress or completed, step 5 iff the request is
   * completed; with no linked appointment steps 3 and 4 are upcoming.
   */
  lemma TimelineJoinRules(r: RequestDto, appts: seq<AppointmentDto>)
    ensures var t := RequestTimeline(r, appts);
      && (t.submitted == CompletedStep <==> !r.status.Pending?)
      && (t.approved == CompletedStep <==> (r.status.Approved? || r.status.InProgress? || r.status.Completed?))
      && (t.approved == UpcomingStep <==> r.status.Pending?)
      && (t.scheduled == CompletedStep <==> exists a :: a in appts && a.adoptionRequestId == r.id)
      && (t.visit == CompletedStep <==>
            exists k :: FirstLinkedAt(appts, r.id, k)
              && (appts[k].status.InProgress? || appts[k].status.Completed?))
      && (t.adopted == CompletedStep <==> r.status.Completed?)
      && ((forall a :: a in appts ==> a.adoptionRequestId != r.id) ==>
            t.scheduled == UpcomingStep && t.visit == UpcomingStep
            && (t.adopted == UpcomingStep <==> !r.status.Completed?))
  {
    var found := FindAppointment(appts, r.id);
    if found.Some? {
      var k :| 0 <= k < |appts| && appts[k] == found.value && FirstLinkedAt(appts, r.id, k);
      forall k' | FirstLinkedAt(appts, r.id, k') ensures k' == k {
        FirstLinkedUnique(appts, r.id, k, k');
      }
    } else {
      forall k | 0 <= k < |appts| ensures !FirstLinkedAt(appts, r.id, k) {
        assert appts[k] in appts;
      }
    }
  }

  /**
   * How the steps hang together: step 1 is completed whenever step 2 is,
   * step 2 is upcoming exactly while step 1 is still active, step 3 is
   * completed whenever step 4 is, and a completed adoption has its first
   * two steps completed.
   */
  lemma TimelineShape(r: RequestDto, appt: Option<AppointmentDto>)
    ensures var t := BuildTimeline(r, appt);
      && (t.approved == CompletedStep ==> t.submitted == CompletedStep)
      && (t.approved == UpcomingStep <==> t.submitted == ActiveStep)
      && (t.visit == CompletedStep ==> t.scheduled == CompletedStep)
      && (t.visit == UpcomingStep <==> t.scheduled == UpcomingStep)
      && (t.adopted == CompletedStep ==> t.submitted == CompletedStep && t.approved == CompletedStep)
      && t.submitted != UpcomingStep && t.scheduled != ActiveStep && t.adopted != ActiveStep
  {
  }

  /**
   * The date a request is sorted and filtered by: `new Date(createdAt || id)`.
   * A missing or zero `createdAt` falls back to the id, read as a timestamp.
   */
  function RequestTime(r: RequestDto): int
  {
    match r.createdAt
    case Some(t) => if t != 0 then t else r.id
    case None => r.id
  }

  predicate NewestFirst(s: seq<RequestDto>)
  {
    forall i, j :: 0 <= i < j < |s| ==> RequestTime(s[i]) >= RequestTime(s[j])
  }

  /** Places `x` after every element at least as new, before the first older one. */
  function InsertByTime(x: RequestDto, s: seq<RequestDto>): (r: seq<RequestDto>)
    requires NewestFirst(s)
    ensures NewestFirst(r)
    ensures multiset(r) == multiset(s) + multiset{x}
    ensures |r| == |s| + 1
    ensures r != [] && (r[0] == x || (s != [] && r[0] == s[0]))
  {
    if s == [] then [x]
    else if RequestTime(s[0]) < RequestTime(x) then
      [x] + s
    else
      var rest := InsertByTime(x, s[1..]);
      assert s == [s[0]] + s[1..];
      [s[0]] + rest
  }

  /**
   * The fetched list sorted newest first (the comparator
   * `(a, b) => time(b) - time(a)`): the result is ordered and holds exactly
   * the fetched requests.
   */
  function SortNewestFirst(s: seq<RequestDto>): (r: seq<RequestDto>)
    ensures NewestFirst(r)
    ensures multiset(r) == multiset(s)
    ensures |r| == |s|
  {
    if s == [] then []
    else
      assert s == s[..|s| - 1] + [s[|s| - 1]];
      InsertByTime(s[|s| - 1], SortNewestFirst(s[..|s| - 1]))
  }
}
